/**
 * String primitives the pipeline relies on: Python's `str.split(sep)` with an
 * explicit one-character separator, its inverse `sep.join`, decimal rendering
 * of naturals (what a template such as `{{ execution_date.month }}` produces)
 * and `int()` restricted to an optionally signed run of ASCII digits.
 */
module Text {
  import opened Wrappers

  /** Number of occurrences of `c` in `s`. */
  function CountChar(s: string, c: char): nat
  {
    if s == [] then 0 else (if s[0] == c then 1 else 0) + CountChar(s[1..], c)
  }

  /** Index of the first `c` in `s`, or `|s|` when there is none. */
  function IndexOf(s: string, c: char): (k: nat)
    ensures k <= |s|
    ensures c !in s[..k]
    ensures k < |s| ==> s[k] == c
  {
    if s == [] then 0
    else if s[0] == c then 0
    else
      assert s[..IndexOf(s[1..], c) + 1] == [s[0]] + s[1..][..IndexOf(s[1..], c)];
      1 + IndexOf(s[1..], c)
  }

  /** What is left of `s` after its leading `p`, when `s` starts with `p`. */
  function StripPrefix(p: string, s: string): (r: Option<string>)
    ensures r.Some? <==> p <= s
    ensures r.Some? ==> s == p + r.value
  {
    if p <= s then Some(s[|p|..]) else None
  }

  /** `s` cut after `n` characters, when it has that many. */
  function TakeN(n: nat, s: string): (r: Option<(string, string)>)
    ensures r.Some? <==> n <= |s|
    ensures r.Some? ==> |r.value.0| == n && s == r.value.0 + r.value.1
  {
    if n <= |s| then Some((s[..n], s[n..])) else None
  }

  lemma StripPrefixOf(p: string, s: string)
    ensures StripPrefix(p, p + s) == Some(s)
  {
    assert (p + s)[|p|..] == s;
  }

  lemma TakeNOf(n: nat, a: string, s: string)
    requires |a| == n
    ensures TakeN(n, a + s) == Some((a, s))
  {
    assert (a + s)[..n] == a && (a + s)[n..] == s;
  }

  /** In `head + [c] + rest` with a `c`-free head, the first `c` follows the head. */
  lemma IndexOfAfter(head: string, c: char, rest: string)
    requires c !in head
    ensures IndexOf(head + [c] + rest, c) == |head|
  {
    var s := head + [c] + rest;
    assert s[|head|] == c;
    assert s[..|head|] == head;
  }

  /** A digit string holds none of the other characters of a URL or a SQL statement. */
  lemma DigitsHaveNo(s: string, c: char)
    requires AllDigits(s) && !IsDigit(c)
    ensures c !in s
  {
    assert forall i | 0 <= i < |s| :: s[i] != c;
  }

  /**
   * `s.split(sep)`: every occurrence of `sep` ends a field, so empty fields
   * are kept and the empty string gives one empty field.
   */
  function Split(s: string, sep: char): (fields: seq<string>)
    ensures |fields| == CountChar(s, sep) + 1
    ensures forall i :: 0 <= i < |fields| ==> sep !in fields[i]
  {
    if s == [] then [""]
    else
      var rest := Split(s[1..], sep);
      if s[0] == sep then [""] + rest
      else [[s[0]] + rest[0]] + rest[1..]
  }

  /** `sep.join(fields)`. */
  function Join(fields: seq<string>, sep: char): string
  {
    if fields == [] then ""
    else if |fields| == 1 then fields[0]
    else fields[0] + [sep] + Join(fields[1..], sep)
  }

  /** Joining the fields of a split gives back the string that was split. */
  lemma {:induction false} JoinSplit(s: string, sep: char)
    ensures Join(Split(s, sep), sep) == s
  {
    if s != [] {
      var rest := Split(s[1..], sep);
      JoinSplit(s[1..], sep);
      if s[0] == sep {
        assert Split(s, sep) == [""] + rest;
        assert Join([""] + rest, sep) == "" + [sep] + Join(rest, sep);
      } else {
        var fields := Split(s, sep);
        assert fields == [[s[0]] + rest[0]] + rest[1..];
        if |rest| == 1 {
          assert fields == [[s[0]] + rest[0]];
        } else {
          assert Join(rest, sep) == rest[0] + [sep] + Join(rest[1..], sep);
          assert fields[1..] == rest[1..];
        }
      }
    }
  }

  /** A string without the separator splits into itself alone. */
  lemma {:induction false} SplitNoSep(s: string, sep: char)
    requires sep !in s
    ensures Split(s, sep) == [s]
  {
    if s != [] {
      SplitNoSep(s[1..], sep);
      assert [s[0]] + s[1..] == s;
    }
  }

  /** A separator-free prefix followed by a separator becomes the first field. */
  lemma {:induction false} SplitAfterField(a: string, sep: char, rest: string)
    requires sep !in a
    ensures Split(a + [sep] + rest, sep) == [a] + Split(rest, sep)
  {
    if a == [] {
      assert a + [sep] + rest == [sep] + rest;
    } else {
      var s := a + [sep] + rest;
      assert s[0] == a[0] && s[1..] == a[1..] + [sep] + rest;
      SplitAfterField(a[1..], sep, rest);
      assert [a[0]] + a[1..] == a;
    }
  }

  /** Splitting a join of separator-free fields gives back the fields. */
  lemma {:induction false} SplitJoin(fields: seq<string>, sep: char)
    requires fields != []
    requires forall i :: 0 <= i < |fields| ==> sep !in fields[i]
    ensures Split(Join(fields, sep), sep) == fields
  {
    if |fields| == 1 {
      SplitNoSep(fields[0], sep);
    } else {
      SplitJoin(fields[1..], sep);
      SplitAfterField(fields[0], sep, Join(fields[1..], sep));
      assert [fields[0]] + fields[1..] == fields;
    }
  }

  predicate IsDigit(c: char)
  {
    '0' <= c <= '9'
  }

  function DigitValue(c: char): nat
    requires IsDigit(c)
  {
    c as int - '0' as int
  }

  function DigitChar(d: nat): (c: char)
    requires d < 10
    ensures IsDigit(c) && DigitValue(c) == d
  {
    ('0' as int + d) as char
  }

  predicate AllDigits(s: string)
  {
    forall i :: 0 <= i < |s| ==> IsDigit(s[i])
  }

  /** The number a run of decimal digits denotes, most significant first. */
  function DigitsValue(s: string): nat
    requires AllDigits(s)
  {
    if s == [] then 0 else 10 * DigitsValue(s[..|s| - 1]) + DigitValue(s[|s| - 1])
  }

  /** Decimal rendering of a natural number, without leading zeros. */
  function Decimal(n: nat): (s: string)
    ensures s != [] && AllDigits(s)
    ensures DigitsValue(s) == n
    ensures |s| == 1 || s[0] != '0'
    ensures n < 10 <==> |s| == 1
  {
    if n < 10 then [DigitChar(n)]
    else
      var s := Decimal(n / 10) + [DigitChar(n % 10)];
      assert s[..|s| - 1] == Decimal(n / 10);
      s
  }

  /** An optionally signed, non-empty run of ASCII decimal digits. */
  predicate IsIntLiteral(s: string)
  {
    if s != [] && (s[0] == '-' || s[0] == '+') then s[1..] != [] && AllDigits(s[1..])
    else s != [] && AllDigits(s)
  }

  /**
   * Python's `int(s)` on the literals above; any other text raises. Text it
   * accepts is a single token of SQL: it has no space and no quote.
   */
  function ParseInt(s: string): (r: Option<int>)
    ensures r.Some? <==> IsIntLiteral(s)
    ensures r.Some? ==> ' ' !in s && '\'' !in s
  {
    if !IsIntLiteral(s) then None
    else
      IntLiteralIsToken(s);
      if s[0] == '-' then Some(0 - DigitsValue(s[1..]) as int)
      else if s[0] == '+' then Some(DigitsValue(s[1..]))
      else Some(DigitsValue(s))
  }

  /** An integer literal is a single token of SQL: it has no space and no quote. */
  lemma IntLiteralIsToken(s: string)
    requires IsIntLiteral(s)
    ensures ' ' !in s && '\'' !in s
  {
    assert forall i :: 0 <= i < |s| ==> IsDigit(s[i]) || (i == 0 && (s[0] == '-' || s[0] == '+')) by {
      forall i | 0 <= i < |s| ensures IsDigit(s[i]) || (i == 0 && (s[0] == '-' || s[0] == '+')) {
        if s[0] == '-' || s[0] == '+' {
          if i > 0 { assert s[i] == s[1..][i - 1]; }
        }
      }
    }
  }

  /** `int()` reads back what decimal rendering writes. */
  lemma ParseDecimal(n: nat)
    ensures ParseInt(Decimal(n)) == Some(n)
    ensures ParseInt("-" + Decimal(n)) == Some(0 - n as int)
  {
    var s := Decimal(n);
    assert ("-" + s)[1..] == s;
  }
}
