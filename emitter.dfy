/**
 * The INSERT statement `writing_insert_script` writes for one stored title,
 * and a reader that takes such a statement apart again. The statement is
 * the text of a triple-quoted f-string: it starts with a line break, each
 * of its two lines is indented by 16 spaces, it ends in `; ` followed by
 * two line breaks and 12 spaces of indentation.
 */
module Emitter {
  import opened Wrappers
  import opened Text
  import opened SqlQuote

  /** Everything up to the quote that opens the title literal. */
  const StatementHead := "\n                INSERT INTO pageviews (page_title,nums_of_views, datetime)\n                VALUES ('"

  /** Everything after the quote that closes the date literal. */
  const StatementTail := "); \n\n            "

  /**
   * `INSERT INTO pageviews ... VALUES ('<title>',<count> , '<d>');` with the
   * title's underscores replaced by spaces and its quotes doubled; the count
   * and the date are inserted as they are. When the count is one token and
   * the date holds no quote, the statement reads back as the displayed
   * title, the count and the date.
   */
  function Statement(title: string, count: string, d: string): (s: string)
    ensures ' ' !in count && '\'' !in d ==>
      ParseStatement(s) == Some((ReplaceUnderscores(title), count, d))
  {
    var v := Values(title, count, d);
    if ' ' !in count && '\'' !in d then
      StripPrefixOf(StatementHead, v);
      ParseValuesRoundTrip(title, count, d);
      StatementHead + v
    else StatementHead + v
  }

  /**
   * Reads the displayed title, the count and the date back out of a
   * statement; `None` for text of any other shape.
   */
  function ParseStatement(s: string): (r: Option<(string, string, string)>)
    ensures r.Some? ==> ' ' !in r.value.1
  {
    var r1 :- StripPrefix(StatementHead, s);
    ParseValues(r1)
  }

  /** The part of `ParseStatement` after the quote that opens the title. */
  function ParseValues(r1: string): (r: Option<(string, string, string)>)
    ensures r.Some? ==> ' ' !in r.value.1
  {
    var (title, r2) :- ReadLiteral(r1);
    var (count, d) :- ParseCountAndDate(r2);
    Some((title, count, d))
  }

  /** The part of `ParseStatement` after the quote that closes the title. */
  function ParseCountAndDate(r2: string): (r: Option<(string, string)>)
    ensures r.Some? ==> ' ' !in r.value.0
  {
    var r3 :- StripPrefix(",", r2);
    var k := IndexOf(r3, ' ');
    var r4 :- StripPrefix(" , '", r3[k..]);
    var (d, r5) :- ReadLiteral(r4);
    if r5 == StatementTail then Some((r3[..k], d)) else None
  }

  /** The values of a statement, after its head, from the title on. */
  function Values(title: string, count: string, d: string): string
  {
    RenderTitle(title) + ("'" + CountAndDate(count, d))
  }

  /** The values of a statement after the quote that closes the title. */
  function CountAndDate(count: string, d: string): string
  {
    "," + (count + (" , '" + (d + ("'" + StatementTail))))
  }

  lemma ParseCountAndDateRoundTrip(count: string, d: string)
    requires ' ' !in count && '\'' !in d
    ensures ParseCountAndDate(CountAndDate(count, d)) == Some((count, d))
  {
    var r4 := d + ("'" + StatementTail);
    var r3 := count + (" , '" + r4);
    StripPrefixOf(",", r3);
    IndexOfAfter(count, ' ', ", '" + r4);
    assert r3 == count + [' '] + (", '" + r4);
    assert r3[..|count|] == count;
    assert r3[|count|..] == " , '" + r4;
    StripPrefixOf(" , '", r4);
    EscapeWithoutQuotes(d);
    assert r4 == EscapeSingleQuotes(d) + "'" + StatementTail;
    ReadEscapedLiteral(d, StatementTail);
  }

  lemma ParseValuesRoundTrip(title: string, count: string, d: string)
    requires ' ' !in count && '\'' !in d
    ensures ParseValues(Values(title, count, d)) == Some((ReplaceUnderscores(title), count, d))
  {
    var shown := ReplaceUnderscores(title);
    assert Values(title, count, d) == EscapeSingleQuotes(shown) + "'" + CountAndDate(count, d);
    ReadEscapedLiteral(shown, CountAndDate(count, d));
    ParseCountAndDateRoundTrip(count, d);
  }

  /** Statements for different titles without spaces show different titles. */
  lemma StatementTitlesDiffer(t1: string, c1: string, t2: string, c2: string, d: string)
    requires ' ' !in t1 && ' ' !in t2 && t1 != t2
    requires ' ' !in c1 && ' ' !in c2 && '\'' !in d
    ensures ParseStatement(Statement(t1, c1, d)).Some? && ParseStatement(Statement(t2, c2, d)).Some?
    ensures ParseStatement(Statement(t1, c1, d)).value.0 != ParseStatement(Statement(t2, c2, d)).value.0
  {
    RestoreReplaced(t1);
    RestoreReplaced(t2);
  }
}
