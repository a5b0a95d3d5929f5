# shorturl: the mapping-file loader and configuration resolution

This project models the core of a small HTTP redirect server written in Go (`main.go`).
At startup the server reads a mapping file with one `id=url` mapping per line.
It registers a redirect from `/<id>` to `url` for each mapping and listens on a port that comes from the environment.
The model covers the pure logic of that program:

- **The loader** (`entries`). It scans the file line by line and skips comment lines.
  A comment line is one whose whitespace-trimmed text starts with `#` or `//`.
  Every other line is split on every `=`. The first piece becomes the `id`; the other pieces, joined again with `=`, become the `url`.
  The entries are appended in file order.
- **The configuration resolution** (`port`, `logLevel`).
  `port` returns the `PORT` value, or `"8080"` when it is empty.
  `logLevel` maps `LOG_LEVEL` to one of four levels, using `info` when it is empty or unrecognised.

Modules:

- `Wrappers` (wrappers.dfy): `Option` and `Result`.
- `GoStrings` (go_strings.dfy): the parts of Go's `strings` package the loader uses.
  These are `TrimSpace` (over Go's `unicode.IsSpace`), `HasPrefix`, `Index`, `Split` and `Join`.
  Each is written after Go's own definition. Each has its characterising lemmas. One round trip holds for every string: `Join(Split(s)) == s`. The other, `Split(Join(parts)) == parts`, holds when `parts` is non-empty and no piece contains the separator.
- `Loader` (loader.dfy): `Entry`, the per-line parse `ParseLine`, and the loop method `Entries`.
  `Entries` is proved equal to the recursive specification `ParseLines` and to `Load`, which adds the I/O error paths.
  Lemmas give the line-level and file-level properties.
- `Config` (config.dfy): `Port` and `LogLevel`.

The file and the environment are inputs to the model.
A `FileInput` says whether opening failed, which lines the scanner delivered, and whether the scanner stopped on an error.
An environment variable is passed in as a string, `""` when unset.

The code permits two things that a description of the data could rule out, and the model follows the code:

- An `id` may be empty: an empty line, or a line starting with `=`, yields an entry with `id == ""`. A line of white space only gives the whole line as its `id`.
- A line without `=` is accepted: its `id` is the whole raw line and its `url` is `""`.

## Model

| member | source | states |
|---|---|---|
| GoStrings.IsSpace | main.go:34 | the white space `TrimSpace` removes is Go's `unicode.IsSpace` set; the separator `=` and the comment markers `#` and `/` are never white space |
| GoStrings.TrimSpace | main.go:34 | the trimmed text is empty or begins and ends with a non-space character |
| GoStrings.TrimLeftSpaceIsSuffix | main.go:34 | trimming the front keeps a suffix of the line and drops only white space |
| GoStrings.TrimRightSpaceIsPrefix | main.go:34 | trimming the back keeps a prefix of the line and drops only white space |
| GoStrings.TrimSpaceIsSlice | main.go:34 | the trimmed text is a slice `s[i..j]` of the line with only white space before `i` and after `j` |
| GoStrings.HasPrefix | main.go:37 | `s` starts with `prefix` exactly when `prefix` is no longer than `s` and agrees with it position by position |
| GoStrings.Index | main.go:42 | the result is -1 exactly when the separator is absent, and otherwise the position of its first occurrence |
| GoStrings.Split | main.go:42 | splitting yields at least one piece, so `parts[0]` always exists, and no piece contains the separator |
| GoStrings.Join | main.go:48 | no pieces give `""` and otherwise the result starts with the first piece; it is characterised by the round trips SplitThenJoin and JoinThenSplit |
| GoStrings.SplitThenJoin | main.go:42-48 | joining the split pieces with the separator rebuilds the string |
| GoStrings.JoinThenSplit | main.go:42-48 | splitting a join of separator-free pieces gives the pieces back |
| GoStrings.SplitCount | main.go:42 | a string splits into one more piece than it has separators |
| GoStrings.JoinTailIsSuffix | main.go:42-48 | the pieces after the first, rejoined with `=`, are exactly the text after the first `=`, or `""` without one |
| Loader.IsComment | main.go:34-39 | a comment has non-empty trimmed text; it is characterised by CommentAfterLeadingSpace |
| Loader.ParseLine | main.go:42-50 | the parsed id never contains `=` |
| Loader.ParseLineFields | main.go:42-51 | the id is the raw, untrimmed line up to the first `=` and the url is everything after it; without `=` the id is the whole line and the url is `""` |
| Loader.ParseLineRebuildsLine | main.go:42-48 | for a line that holds `=`, `id + "=" + url` equals the line, so later `=` characters stay in the url |
| Loader.ParseLineWithoutSeparator | main.go:42-51 | a line without `=` gives `Entry(line, "")`; nothing is rejected |
| Loader.ParseFormattedLine | main.go:42-50 | parsing `id=url` gives back `(id, url)` whenever the id holds no `=`; this is the inverse of the rebuild property |
| Loader.QueryStringTarget | main.go:47-48 | `a=http://x?x=1&y=2` parses to id `a` and url `http://x?x=1&y=2` |
| Loader.SurroundingSpaceKept | main.go:34-48 | white space around the id and the url is kept in them, because splitting uses the raw line |
| Loader.TrimRightKeepsPrefix | main.go:34-37 | trimming the back does not change whether the text starts with `#` or `//` |
| Loader.LeadingSpaceEnds | main.go:34 | the front trim stops exactly at the first non-space character |
| Loader.CommentAfterLeadingSpace | main.go:34-39 | a line is a comment exactly when optional leading white space is followed by `#` or `//` (both directions) |
| Loader.BlankLineGivesEntry | main.go:34-51 | a white-space-only line is not skipped and gives the entry `(line, "")` |
| Loader.ParseLines | main.go:29-52 | the recursive specification of the loop never yields more entries than there are lines; ParseLinesLength, ParseLinesPosition and ParseLinesSource characterise it fully |
| Loader.Load | main.go:21-59 | the result of `entries`: it succeeds exactly when neither the open nor the scan failed, and then holds ParseLines of the lines; an open error or a scan error is returned as it is and no entries are kept (main.go:23-26, main.go:54-58) |
| Loader.Entries | main.go:21-59 | the loop's result equals `Load(input)`: the parsed entries of the non-comment lines in order, or the open or scan error |
| Loader.ParseLinesAppend | main.go:29-52 | lines are parsed independently: the entries of `a + b` are those of `a` followed by those of `b` |
| Loader.ParseLinesLength | main.go:29-52 | there is exactly one entry per non-comment line, so never more entries than lines |
| Loader.ParseLinesPosition | main.go:29-52 | the entry of non-comment line `i` sits at the position equal to the number of non-comment lines before `i` |
| Loader.ParseLinesSource | main.go:29-52 | every entry is the parse of a non-comment line, found at that position |
| Loader.CountPastFirstLine | main.go:29-52 | proof helper for ParseLinesSource: the count over the first `i + 1` lines is the first line's count plus the count of the next `i` lines |
| Loader.NonCommentCountAppend | main.go:29-52 | proof helper for ParseLinesKeepsOrder: counting non-comment lines is additive over concatenation |
| Loader.ParseLinesKeepsOrder | main.go:29-52 | a later non-comment line gets a strictly later position: order is preserved |
| Loader.CommentLineVanishes | main.go:36-39 | inserting a comment line anywhere leaves the entries unchanged |
| Config.Port | main.go:61-67 | the port is never empty; an empty value gives `"8080"` and any other value is returned unchanged |
| Config.LogLevel | main.go:70-86 | the result is Info exactly when the value is not `debug`, `warn` or `error`; any other level is the one named by the value |
| Config.LogLevelOfName | main.go:75-83 | each level is selected by its own name |

## Left out

- Opening the file and `bufio.Scanner`'s line splitting are not modelled (main.go:23-33). This covers dropping `\r\n` line endings and the token size limit. The model starts from the sequence of lines the scanner delivers, and from the fact that the open or the scan failed.
- Reading `PORT` and `LOG_LEVEL` with `os.Getenv` is not modelled (main.go:62, main.go:71). The value is a parameter instead.
- The log calls are side effects of an external logging library. These are the warnings in `port` and `logLevel`, and the messages in `main`.
- `main` is not modelled (main.go:89-118). It registers one `net/http` handler per entry plus the fallback handler at `/`, and it listens on `0.0.0.0:<port>`. How duplicate ids, or an empty id that collides with `/`, are resolved is decided by `net/http`'s `ServeMux`, which is not part of this model.
- GoStrings.Split: modelled only for a one-character separator, the only kind the program passes (`"="`).
- GoStrings.IsSpace: strings are sequences of Unicode code points, not Go's UTF-8 bytes. Invalid UTF-8 is therefore not represented. The characters the loader cuts or tests at (`=`, `#`, `/`) are ASCII, so the positions are unaffected.
