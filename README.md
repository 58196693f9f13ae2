# Wikimedia pageview pipeline, modelled in Dafny

The pipeline runs as a scheduled job. It downloads one hourly Wikimedia
pageview dump and keeps the lines of the English Wikipedia (`en`) whose view
count exceeds 100. It stores one count per page title in an insertion-ordered
dict, where a later line overwrites an earlier one. It then writes one
`INSERT INTO pageviews` statement per stored title into a SQL script.

This model covers the data-handling core of `dags/wikimedia_pipeline.py`:

- `fetcher.dfy` (module `Fetcher`): the dump URL that `crawling_data` builds.
  - Month, day and hour go through the format spec `0>2`; the year is inserted verbatim.
  - A reader recovers the fields of the URL, which proves that the URL names exactly one partition.
- `sql_quote.dfy` (module `SqlQuote`): `escape_single_quotes` and the rendering of a title.
  - Rendering replaces `_` with a space, then doubles each `'`. Doubling is the quote rule for character string literals in ISO/IEC 9075-2, subclause 5.3 `<literal>`.
  - Also here: the inverse of escaping and a reader for a literal's body.
- `aggregation.dfy` (module `Aggregation`): the first loop of `writing_insert_script`.
  - Each line is split on `" "` and unpacked into four fields.
  - The `en`/`> 100` filter is applied.
  - Kept lines are stored in a dict, given as its keys in insertion order plus a map.
  - A line that does not unpack, or an `en` line whose count is not an integer, makes the run raise.
  - The per-line behaviour is a function (`ClassifyLine`); the dict after a run of lines is a fold (`Fold`).
- `emitter.dfy` (module `Emitter`): the text of one INSERT statement, exactly as the triple-quoted f-string produces it, and a reader that takes a statement apart again.
- `script_writer.dfy` (module `ScriptWriter`): `writing_insert_script` as an imperative method with its two loops. It is proved equal to the specification function `ScriptFor`, and the end-to-end lemmas are stated over `ScriptFor`.
- `text.dfy` (module `Text`): the string primitives used above.
  - `str.split` with a one-character separator and its inverse `join`.
  - The decimal rendering of naturals, which is what the scheduler's `{{ execution_date.month }}`-style templates produce.
  - `int()` on an optionally signed run of ASCII digits.
- `wrappers.dfy` (module `Wrappers`): `Option` and `Result`.

Behaviour of the code that is easy to misread:

- **A malformed line crashes the run.** The code raises on a line without exactly four space-separated fields, and on an `en` line whose count is not an integer; it never skips such a line. The model returns `Failure` for these, and then no statement is written.
- **`and` short-circuits.** The count of a line whose project is not `en` is never parsed. Such a line with a non-numeric count is skipped and does not raise.
- **The date is not escaped.** The timestamp `d` is inserted between quotes as it is. The statement reads back correctly only when `d` holds no quote (`Statement`, `ScriptReadsBack`).
- **Lines keep their line break.** Each line is taken with its trailing line break, as iterating over a text file yields it. The break lands in the fourth, ignored field.

## Model

| member | source | states |
|---|---|---|
| Fetcher.PadLeft2 | dags/wikimedia_pipeline.py:20-21 | `0>2` on a string: the result has width max(2, length), ends with the input and is '0' before it |
| Fetcher.ParseDumpUrl | dags/wikimedia_pipeline.py:20-21 | every text the reader accepts is the root followed by the path built from the year and three two-character fields it returns |
| Fetcher.DumpUrl | dags/wikimedia_pipeline.py:20-21 | the f-string URL; for a year without '/' and month, day, hour at most two characters, it reads back as the year and the three padded fields, so it names exactly that partition (proved by `ParseDumpUrlRoundTrip`) |
| Fetcher.ParseDumpUrlRoundTrip | dags/wikimedia_pipeline.py:20-21 | for a year without '/' and month, day, hour at most two characters, the root followed by the path from the year and the padded fields reads back as the year and the three padded fields |
| Fetcher.DumpUrlInjective | dags/wikimedia_pipeline.py:20-21 | two such partitions with the same URL have the same year and the same padded month, day and hour |
| Fetcher.PaddedDecimal | dags/wikimedia_pipeline.py:20-21 | a number below 100 rendered in decimal and padded is two digits that denote that number |
| Fetcher.PartitionUrl | dags/wikimedia_pipeline.py:77-80 | the URL for numbers rendered by the scheduler; for a calendar month, day and hour it reads back as the decimal year and the padded decimal month, day and hour |
| Fetcher.PartitionUrlExample | dags/wikimedia_pipeline.py:20-21 | 2024-03-05 hour 9 gives the path `2024/2024-03/pageviews-20240305-090000.gz` and reads back as ("2024", "03", "05", "09") |
| Text.Split | dags/wikimedia_pipeline.py:43 | `split(" ")` gives one field more than there are spaces, and no field holds a space |
| Text.JoinSplit | dags/wikimedia_pipeline.py:43 | joining the fields with the separator gives back the line |
| Text.SplitJoin | dags/wikimedia_pipeline.py:43 | splitting a join of separator-free fields gives back the fields |
| Text.Decimal | dags/wikimedia_pipeline.py:77-80 | a rendered number is a non-empty digit string without leading zero that denotes the number, one digit long exactly below 10 |
| Text.ParseInt | dags/wikimedia_pipeline.py:44 | `int()` succeeds exactly on an optionally signed, non-empty run of ASCII digits, and text it accepts holds no space and no quote; its value on rendered numbers is given by `ParseDecimal` |
| Text.ParseDecimal | dags/wikimedia_pipeline.py:44 | `int()` reads back a rendered number and its negation |
| Text.IntLiteralIsToken | dags/wikimedia_pipeline.py:44 | an optionally signed run of digits, the only text `int()` is modelled to accept, holds no space and no quote |
| SqlQuote.EscapeSingleQuotes | dags/wikimedia_pipeline.py:27-28 | the escaped text is longer by the number of quotes, and each of its quotes is one half of an adjacent pair |
| SqlQuote.UnescapeEscape | dags/wikimedia_pipeline.py:27-28 | collapsing every `''` back to `'` recovers the input |
| SqlQuote.EscapeUnescape | dags/wikimedia_pipeline.py:27-28 | every text whose quotes are paired is the escape of the text it collapses to |
| SqlQuote.EscapeWithoutQuotes | dags/wikimedia_pipeline.py:27-28 | text without a quote is returned unchanged |
| SqlQuote.EscapeConcat | dags/wikimedia_pipeline.py:27-28 | escaping a concatenation escapes each part |
| SqlQuote.EscapeAddsOnlyQuotes | dags/wikimedia_pipeline.py:27-28 | no character other than the quote appears in the output unless it was in the input |
| SqlQuote.ReadEscapedLiteral | dags/wikimedia_pipeline.py:28 | a SQL reader given the escaped text and a closing quote returns the original text and stops at that quote |
| SqlQuote.ReplaceUnderscores | dags/wikimedia_pipeline.py:51 | `replace("_", " ")` keeps the length and leaves no underscore |
| SqlQuote.RestoreReplaced | dags/wikimedia_pipeline.py:51 | a title without spaces is recovered from its form with spaces |
| SqlQuote.RenderTitle | dags/wikimedia_pipeline.py:51 | the rendered title holds no underscore and all its quotes come in adjacent pairs |
| SqlQuote.RenderTitleInjective | dags/wikimedia_pipeline.py:51 | distinct titles without spaces render differently |
| SqlQuote.ReplaceConcat | dags/wikimedia_pipeline.py:51 | replacing underscores in a concatenation replaces them in each part |
| SqlQuote.ReplaceWithoutUnderscores | dags/wikimedia_pipeline.py:51 | a title without underscores is unchanged |
| SqlQuote.RenderTitleShape | dags/wikimedia_pipeline.py:51 | in a title with one underscore and a later quote, the underscore becomes a space and the quote is doubled |
| SqlQuote.RenderTitleExample | dags/wikimedia_pipeline.py:51 | `New_York's` is rendered `New York''s` |
| Aggregation.ClassifyLine | dags/wikimedia_pipeline.py:43-45 | a kept line yields a space-free title and a count that `int()` reads as more than 100 |
| Aggregation.ClassifyFieldCount | dags/wikimedia_pipeline.py:43 | a line with other than three spaces raises an unpack error naming its field count |
| Aggregation.FourFields | dags/wikimedia_pipeline.py:43 | a line with three spaces is its four fields joined by spaces |
| Aggregation.ClassifyFourFields | dags/wikimedia_pipeline.py:43-45 | for a four-field line: another project is skipped without parsing the count; an `en` line raises when the count is not an integer, is kept when it exceeds 100, and is skipped otherwise |
| Aggregation.ClassifyKeepIff | dags/wikimedia_pipeline.py:43-45 | a line stores `t -> c` exactly when it reads `en t c rest` with space-free fields and `c` an integer above 100 |
| Aggregation.Put | dags/wikimedia_pipeline.py:45 | `result[t] = c` keeps the dict well formed, maps `t` to `c`, changes no other value, and keeps the old keys as a prefix with at most one key added |
| Aggregation.Fold | dags/wikimedia_pipeline.py:38-45 | the dict built by any run of lines lists each key once, and lists exactly the keys that are stored |
| Aggregation.Aggregate | dags/wikimedia_pipeline.py:38-45 | the dict built from the lines is well formed (each key once, exactly the stored keys), and there is none exactly when some line raises; its contents are given by `FoldKeys`, `FoldLastWins` and `FoldFirstOrder` on its fold, its error by `FoldRaises` |
| Aggregation.FoldStep | dags/wikimedia_pipeline.py:42-45 | one more line raises, leaves the dict alone or stores its title and count |
| Aggregation.FoldFailureSticks | dags/wikimedia_pipeline.py:42-44 | once a line has raised, the rest of the input does not change the outcome |
| Aggregation.RaiseEndsRun | dags/wikimedia_pipeline.py:43-44 | the first line that raises ends the run with its own error |
| Aggregation.FoldRaises | dags/wikimedia_pipeline.py:43-44 | the run raises exactly when some line raises, and then with the error of the first such line |
| Aggregation.FoldKeys | dags/wikimedia_pipeline.py:44-45 | a title is stored exactly when some line keeps it |
| Aggregation.FoldLastWins | dags/wikimedia_pipeline.py:45 | the stored value is the count written in the last line that keeps the title; counts are not summed |
| Aggregation.FirstKeep | dags/wikimedia_pipeline.py:45 | the index of the first line that keeps a title, or the number of lines when none does |
| Aggregation.FoldFirstOrder | dags/wikimedia_pipeline.py:45 | every key is kept by some line, and the keys are listed in the order of the first line that keeps each |
| Aggregation.AggregateValuesAreCounts | dags/wikimedia_pipeline.py:44-45 | every stored value is text that the model's `int()` reads as an integer above 100 |
| Aggregation.ClassifyCountLine | dags/wikimedia_pipeline.py:43-45 | a line `dc t n rest` with space-free fields and the count `n` written in decimal, whatever `rest` holds, is kept with that count exactly when `dc` is `en` and `n` exceeds 100, and is skipped otherwise |
| Aggregation.LastWriteWinsExample | dags/wikimedia_pipeline.py:44-45 | `en Dog 150`, `en Dog 200`, `en Dog 50` leave `Dog -> "200"` |
| Emitter.Statement | dags/wikimedia_pipeline.py:53-56 | the f-string statement; given a one-token count and a date without quotes, it reads back as the title with spaces, the count verbatim and the date verbatim |
| Emitter.ParseValuesRoundTrip | dags/wikimedia_pipeline.py:55 | the values part reads back as the title with spaces, the count and the date |
| Emitter.ParseCountAndDateRoundTrip | dags/wikimedia_pipeline.py:55 | the text after the title reads back as the count and the unescaped date |
| Emitter.StatementTitlesDiffer | dags/wikimedia_pipeline.py:51-55 | statements for different space-free titles show different titles |
| ScriptWriter.Emit | dags/wikimedia_pipeline.py:49-56 | one statement per key of the dict |
| ScriptWriter.ScriptFor | dags/wikimedia_pipeline.py:38-56 | a run fails exactly when some line raises, with the error of the first such line, and otherwise writes one statement per stored title; `ScriptContents` and `ScriptReadsBack` give the statements |
| ScriptWriter.WritingInsertScript | dags/wikimedia_pipeline.py:31-56 | the method gives exactly what `ScriptFor` specifies: the error of the run, or the statements for the dict built from the lines |
| ScriptWriter.ReadDump | dags/wikimedia_pipeline.py:38-45 | the first loop builds the dict `Aggregate` specifies, or stops with the error of the first line that raises |
| ScriptWriter.WriteStatements | dags/wikimedia_pipeline.py:48-56 | the second loop writes, in dict order, the statement for each key with its stored count |
| ScriptWriter.ScriptContents | dags/wikimedia_pipeline.py:38-56 | one statement per distinct qualifying title, with the count of its last qualifying line; every qualifying title has one; the order is that of first qualifying lines |
| ScriptWriter.ScriptReadsBack | dags/wikimedia_pipeline.py:49-56 | each statement reads back as its title with spaces, its stored count and the date, and no two statements show the same title |
| ScriptWriter.EndToEndExample | dags/wikimedia_pipeline.py:38-56 | `en Cat 150`, `en Dog 50`, `fr Chien 500`, `en New_York's 300` give two statements, `Cat` with 150 and `New York''s` with 300 |

## Left out

- The download (`request.urlretrieve`, line 23) is not modelled; only the URL is. The network is not modelled.
- File I/O is not modelled (lines 41 and 48). The input is a sequence of already-decoded lines, each with its line break. UTF-8 decoding with `errors='ignore'` is not modelled. The output is the sequence of texts passed to `f.write`; the file holds their concatenation.
- Text.ParseInt: `int()` is modelled on an optionally signed run of ASCII digits only. Python's `int()` also strips surrounding whitespace and accepts `_` between digits and non-ASCII decimal digits. `split(" ")` splits on the space character alone, so a count such as `"150\t"`, `"1_000"` or one in Arabic-Indic digits can reach `int()`. On such an `en` line the program stores the count and goes on, while the model's run fails with an `IntError`. In the other direction, the model accepts digit runs of any length, while CPython's `int()` by default raises on a decimal string of more than 4300 digits; on an `en` line with such a count the program raises and the model keeps the line.
- Aggregation.AggregateValuesAreCounts: holds only for the narrower `int()` of the model. The program also stores counts such as `"150\t"` or `"1_000"`, and writes them into the SQL as they are.
- The DAG, the scheduler and the operators (lines 59-128) are orchestration with no data logic. This leaves out `gunzip`, table creation, running the script with Postgres, `max_active_runs` and `depends_on_past`. Only the rendering of the partition numbers into the URL is modelled (`Text.Decimal`, `Fetcher.PartitionUrl`).
- The date `d` is not modelled beyond a string. What `{{ execution_date }}` renders is left to the scheduler.
