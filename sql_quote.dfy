/**
 * How a page title becomes the body of a SQL character string literal:
 * underscores turn into spaces, then every single quote is doubled, the
 * quote rule for `<character string literal>` in ISO/IEC 9075-2 (SQL
 * Foundation), subclause 5.3 `<literal>`.
 */
module SqlQuote {
  import opened Wrappers
  import opened Text

  /** Every quote of `e` is one half of an adjacent pair `''`. */
  predicate QuotesPaired(e: string)
  {
    if e == [] then true
    else if e[0] == '\'' then |e| >= 2 && e[1] == '\'' && QuotesPaired(e[2..])
    else QuotesPaired(e[1..])
  }

  /** `escape_single_quotes`: `text.replace("'", "''")`. */
  function EscapeSingleQuotes(s: string): (r: string)
    ensures |r| == |s| + CountChar(s, '\'')
    ensures QuotesPaired(r)
  {
    if s == [] then ""
    else
      var rest := EscapeSingleQuotes(s[1..]);
      assert (EscapeHead(s[0]) + rest)[|EscapeHead(s[0])|..] == rest;
      EscapeHead(s[0]) + rest
  }

  /** What one character of the input becomes. */
  function EscapeHead(c: char): string
  {
    if c == '\'' then "''" else [c]
  }

  /** Escaping works character by character. */
  lemma {:induction false} EscapeConcat(a: string, b: string)
    ensures EscapeSingleQuotes(a + b) == EscapeSingleQuotes(a) + EscapeSingleQuotes(b)
  {
    if a != [] {
      var ab := a + b;
      assert ab[0] == a[0] && ab[1..] == a[1..] + b;
      EscapeConcat(a[1..], b);
      var x, y := EscapeSingleQuotes(a[1..]), EscapeSingleQuotes(b);
      var h := EscapeHead(a[0]);
      assert EscapeSingleQuotes(ab) == h + (x + y);
      assert EscapeSingleQuotes(a) == h + x;
      assert h + (x + y) == (h + x) + y;
    } else {
      assert a + b == b;
    }
  }

  /** Escaping adds quotes and nothing else: no other character appears. */
  lemma {:induction false} EscapeAddsOnlyQuotes(s: string, c: char)
    requires c != '\'' && c !in s
    ensures c !in EscapeSingleQuotes(s)
  {
    if s != [] {
      EscapeAddsOnlyQuotes(s[1..], c);
    }
  }

  /** Collapses every `''` back to a single `'`. */
  function UnescapeQuotes(e: string): string
  {
    if e == [] then ""
    else if |e| >= 2 && e[0] == '\'' && e[1] == '\'' then "'" + UnescapeQuotes(e[2..])
    else [e[0]] + UnescapeQuotes(e[1..])
  }

  /** Collapsing the doubled quotes recovers the original text. */
  lemma {:induction false} UnescapeEscape(s: string)
    ensures UnescapeQuotes(EscapeSingleQuotes(s)) == s
  {
    if s != [] {
      var rest := EscapeSingleQuotes(s[1..]);
      UnescapeEscape(s[1..]);
      if s[0] == '\'' {
        assert ("''" + rest)[2..] == rest;
      } else {
        assert ([s[0]] + rest)[1..] == rest;
      }
      assert [s[0]] + s[1..] == s;
    }
  }

  /** Every text whose quotes are paired is the escape of exactly one text. */
  lemma {:induction false} EscapeUnescape(e: string)
    requires QuotesPaired(e)
    ensures EscapeSingleQuotes(UnescapeQuotes(e)) == e
  {
    if e != [] {
      if e[0] == '\'' {
        EscapeUnescape(e[2..]);
        var u := UnescapeQuotes(e[2..]);
        assert ("'" + u)[1..] == u;
        assert "''" + e[2..] == e;
      } else {
        EscapeUnescape(e[1..]);
        var u := UnescapeQuotes(e[1..]);
        assert ([e[0]] + u)[1..] == u;
        assert [e[0]] + e[1..] == e;
      }
    }
  }

  /** Text without quotes is returned unchanged. */
  lemma {:induction false} EscapeWithoutQuotes(s: string)
    requires '\'' !in s
    ensures EscapeSingleQuotes(s) == s
  {
    if s != [] {
      EscapeWithoutQuotes(s[1..]);
      assert [s[0]] + s[1..] == s;
    }
  }

  /**
   * Reads the body of a SQL character literal whose opening quote has been
   * consumed: `''` stands for one quote and a lone quote closes the literal.
   * Gives the literal's value and the text after the closing quote.
   */
  function ReadLiteral(s: string): (r: Option<(string, string)>)
    ensures r.Some? ==> |r.value.1| < |s|
  {
    if s == [] then None
    else if s[0] == '\'' then
      if |s| >= 2 && s[1] == '\'' then
        var (v, rest) :- ReadLiteral(s[2..]);
        Some(("'" + v, rest))
      else Some(("", s[1..]))
    else
      var (v, rest) :- ReadLiteral(s[1..]);
      Some(([s[0]] + v, rest))
  }

  /**
   * An escaped text between quotes is read back as exactly that text,
   * and the reader stops at the quote the emitter closes it with.
   */
  lemma {:induction false} ReadEscapedLiteral(t: string, rest: string)
    requires rest == [] || rest[0] != '\''
    ensures ReadLiteral(EscapeSingleQuotes(t) + "'" + rest) == Some((t, rest))
  {
    if t == [] {
      var e := EscapeSingleQuotes(t) + "'" + rest;
      assert e == "'" + rest;
      assert e[1..] == rest;
    } else {
      var tail := EscapeSingleQuotes(t[1..]) + "'" + rest;
      ReadEscapedLiteral(t[1..], rest);
      assert EscapeSingleQuotes(t) + "'" + rest == EscapeHead(t[0]) + tail;
      ReadLiteralHead(t[0], tail);
      assert [t[0]] + t[1..] == t;
    }
  }

  /** The reader turns what one escaped character became back into that character. */
  lemma ReadLiteralHead(c: char, tail: string)
    requires ReadLiteral(tail).Some?
    ensures ReadLiteral(EscapeHead(c) + tail) == Some(([c] + ReadLiteral(tail).value.0, ReadLiteral(tail).value.1))
  {
    var e := EscapeHead(c) + tail;
    if c == '\'' {
      assert e[2..] == tail;
    } else {
      assert e[1..] == tail;
    }
  }

  /** `title.replace("_", " ")`. */
  function ReplaceUnderscores(s: string): (r: string)
    ensures |r| == |s| && '_' !in r
  {
    if s == [] then "" else [if s[0] == '_' then ' ' else s[0]] + ReplaceUnderscores(s[1..])
  }

  /** The inverse of `ReplaceUnderscores` on titles, which never hold a space. */
  function RestoreUnderscores(s: string): string
  {
    if s == [] then "" else [if s[0] == ' ' then '_' else s[0]] + RestoreUnderscores(s[1..])
  }

  /** A title without spaces is recovered from its displayed form. */
  lemma {:induction false} RestoreReplaced(t: string)
    requires ' ' !in t
    ensures RestoreUnderscores(ReplaceUnderscores(t)) == t
  {
    if t != [] {
      RestoreReplaced(t[1..]);
      assert [t[0]] + t[1..] == t;
    }
  }

  /** The title as it appears between the quotes of an INSERT statement. */
  function RenderTitle(title: string): (r: string)
    ensures '_' !in r && QuotesPaired(r)
  {
    EscapeAddsOnlyQuotes(ReplaceUnderscores(title), '_');
    EscapeSingleQuotes(ReplaceUnderscores(title))
  }

  /** Distinct titles without spaces are rendered differently. */
  lemma RenderTitleInjective(t1: string, t2: string)
    requires ' ' !in t1 && ' ' !in t2
    requires RenderTitle(t1) == RenderTitle(t2)
    ensures t1 == t2
  {
    UnescapeEscape(ReplaceUnderscores(t1));
    UnescapeEscape(ReplaceUnderscores(t2));
    RestoreReplaced(t1);
    RestoreReplaced(t2);
  }

  /** Replacing underscores works character by character. */
  lemma {:induction false} ReplaceConcat(a: string, b: string)
    ensures ReplaceUnderscores(a + b) == ReplaceUnderscores(a) + ReplaceUnderscores(b)
  {
    if a != [] {
      var ab := a + b;
      assert ab[0] == a[0] && ab[1..] == a[1..] + b;
      ReplaceConcat(a[1..], b);
    } else {
      assert a + b == b;
    }
  }

  lemma {:induction false} ReplaceWithoutUnderscores(s: string)
    requires '_' !in s
    ensures ReplaceUnderscores(s) == s
  {
    if s != [] {
      ReplaceWithoutUnderscores(s[1..]);
      assert [s[0]] + s[1..] == s;
    }
  }

  /**
   * A title with one underscore followed later by one quote: the underscore
   * becomes a space and the quote is doubled.
   */
  lemma RenderTitleShape(a: string, b: string, c: string)
    requires '_' !in a && '_' !in b && '_' !in c
    requires '\'' !in a && '\'' !in b && '\'' !in c
    ensures RenderTitle(a + "_" + b + "'" + c) == a + " " + b + "''" + c
  {
    ReplaceConcat(a + "_" + b + "'", c);
    ReplaceConcat(a + "_" + b, "'");
    ReplaceConcat(a + "_", b);
    ReplaceConcat(a, "_");
    ReplaceWithoutUnderscores(a);
    ReplaceWithoutUnderscores(b);
    ReplaceWithoutUnderscores(c);
    ReplaceWithoutUnderscores("'");
    assert ReplaceUnderscores("_") == " ";
    assert ReplaceUnderscores(a + "_" + b + "'" + c) == a + " " + b + "'" + c;
    var head := a + " " + b;
    assert '\'' !in head;
    EscapeConcat(head + "'", c);
    EscapeConcat(head, "'");
    EscapeWithoutQuotes(head);
    EscapeWithoutQuotes(c);
    assert EscapeSingleQuotes("'") == "''";
  }

  /** Underscores are replaced before quotes are doubled. */
  lemma RenderTitleExample()
    ensures RenderTitle("New_York's") == "New York''s"
  {
    RenderTitleShape("New", "York", "s");
    assert "New" + "_" + "York" + "'" + "s" == "New_York's";
    assert "New" + " " + "York" + "''" + "s" == "New York''s";
  }
}
