/**
 * The dump URL built by `crawling_data`: the year is inserted verbatim and
 * month, day and hour go through the format spec `0>2` (fill with '0',
 * align right, width 2). The download itself is not modelled.
 */
module Fetcher {
  import opened Wrappers
  import opened Text

  const DumpRoot := "https://dumps.wikimedia.org/other/pageviews/"

  /** Format spec `0>2` on a string: left-fill with '0' up to width 2. */
  function PadLeft2(s: string): (r: string)
    ensures |r| == if |s| >= 2 then |s| else 2
    ensures r[|r| - |s|..] == s
    ensures forall i :: 0 <= i < |r| - |s| ==> r[i] == '0'
  {
    if |s| >= 2 then s else seq(2 - |s|, _ => '0') + s
  }

  /** The text of the URL after the root, from already padded fields. */
  function DumpPath(year: string, mm: string, dd: string, hh: string): string
  {
    year + ("/" + (year + ("-" + (mm + ("/pageviews-" + (year + (mm + (dd + ("-" + (hh + "0000.gz"))))))))))
  }

  /**
   * The URL of the hourly pageview dump for one partition. For a year
   * without '/' and fields at most two characters wide, it names exactly
   * that partition: the year and the padded fields can be read back.
   */
  function DumpUrl(year: string, month: string, day: string, hour: string): (url: string)
    ensures '/' !in year && |month| <= 2 && |day| <= 2 && |hour| <= 2 ==>
      ParseDumpUrl(url) == Some((year, PadLeft2(month), PadLeft2(day), PadLeft2(hour)))
  {
    var url := DumpRoot + DumpPath(year, PadLeft2(month), PadLeft2(day), PadLeft2(hour));
    if '/' !in year && |month| <= 2 && |day| <= 2 && |hour| <= 2 then
      ParseDumpUrlRoundTrip(year, month, day, hour);
      url
    else url
  }

  /** Reads `dd` and `hh` out of the file-name tail `year mm dd "-" hh "0000.gz"`. */
  function ParseFileTail(year: string, mm: string, s: string): (r: Option<(string, string)>)
    ensures r.Some? ==> |r.value.0| == |r.value.1| == 2
    ensures r.Some? ==> s == year + (mm + (r.value.0 + ("-" + (r.value.1 + "0000.gz"))))
  {
    var r1 :- StripPrefix(year, s);
    var r2 :- StripPrefix(mm, r1);
    var (dd, r3) :- TakeN(2, r2);
    var r4 :- StripPrefix("-", r3);
    var (hh, r5) :- TakeN(2, r4);
    if r5 == "0000.gz" then Some((dd, hh)) else None
  }

  /** Reads `mm`, `dd` and `hh` out of the text that follows the first year. */
  function ParseAfterYear(year: string, s: string): (r: Option<(string, string, string)>)
    ensures r.Some? ==> |r.value.0| == |r.value.1| == |r.value.2| == 2
    ensures r.Some? ==> year + s == DumpPath(year, r.value.0, r.value.1, r.value.2)
  {
    var r1 :- StripPrefix("/", s);
    var r2 :- StripPrefix(year, r1);
    var r3 :- StripPrefix("-", r2);
    var (mm, r4) :- TakeN(2, r3);
    var r5 :- StripPrefix("/pageviews-", r4);
    var (dd, hh) :- ParseFileTail(year, mm, r5);
    Some((mm, dd, hh))
  }

  /**
   * Reads year and the padded month, day and hour back out of a dump URL
   * whose padded fields are two characters wide; `None` for any other text.
   */
  function ParseDumpUrl(u: string): (r: Option<(string, string, string, string)>)
    ensures r.Some? ==> |r.value.1| == |r.value.2| == |r.value.3| == 2
    ensures r.Some? ==> u == DumpRoot + DumpPath(r.value.0, r.value.1, r.value.2, r.value.3)
  {
    var path :- StripPrefix(DumpRoot, u);
    var k := IndexOf(path, '/');
    assert path == path[..k] + path[k..];
    var (mm, dd, hh) :- ParseAfterYear(path[..k], path[k..]);
    Some((path[..k], mm, dd, hh))
  }

  /**
   * A URL built from a year without '/' and fields at most two characters
   * wide names exactly one partition: its padded fields can be read back.
   */
  lemma ParseDumpUrlRoundTrip(year: string, month: string, day: string, hour: string)
    requires '/' !in year
    requires |month| <= 2 && |day| <= 2 && |hour| <= 2
    ensures ParseDumpUrl(DumpRoot + DumpPath(year, PadLeft2(month), PadLeft2(day), PadLeft2(hour)))
         == Some((year, PadLeft2(month), PadLeft2(day), PadLeft2(hour)))
  {
    var mm, dd, hh := PadLeft2(month), PadLeft2(day), PadLeft2(hour);
    var path := DumpPath(year, mm, dd, hh);
    var r1 := year + ("-" + (mm + ("/pageviews-" + (year + (mm + (dd + ("-" + (hh + "0000.gz"))))))));
    StripPrefixOf(DumpRoot, path);
    assert path == year + "/" + r1;
    IndexOfAfter(year, '/', r1);
    assert path[..|year|] == year;
    assert path[|year|..] == "/" + r1;
    StripPrefixOf("/", r1);
    StripPrefixOf(year, "-" + (mm + ("/pageviews-" + (year + (mm + (dd + ("-" + (hh + "0000.gz"))))))));
    StripPrefixOf("-", mm + ("/pageviews-" + (year + (mm + (dd + ("-" + (hh + "0000.gz")))))));
    TakeNOf(2, mm, "/pageviews-" + (year + (mm + (dd + ("-" + (hh + "0000.gz"))))));
    StripPrefixOf("/pageviews-", year + (mm + (dd + ("-" + (hh + "0000.gz")))));
    StripPrefixOf(year, mm + (dd + ("-" + (hh + "0000.gz"))));
    StripPrefixOf(mm, dd + ("-" + (hh + "0000.gz")));
    TakeNOf(2, dd, "-" + (hh + "0000.gz"));
    StripPrefixOf("-", hh + "0000.gz");
    TakeNOf(2, hh, "0000.gz");
  }

  /** Different padded partitions give different dump URLs. */
  lemma DumpUrlInjective(y1: string, m1: string, d1: string, h1: string,
                         y2: string, m2: string, d2: string, h2: string)
    requires '/' !in y1 && '/' !in y2
    requires |m1| <= 2 && |d1| <= 2 && |h1| <= 2 && |m2| <= 2 && |d2| <= 2 && |h2| <= 2
    requires DumpUrl(y1, m1, d1, h1) == DumpUrl(y2, m2, d2, h2)
    ensures y1 == y2
    ensures PadLeft2(m1) == PadLeft2(m2) && PadLeft2(d1) == PadLeft2(d2) && PadLeft2(h1) == PadLeft2(h2)
  {
  }

  /**
   * The scheduler renders the partition's numbers in decimal; every value
   * below 100 is then padded to exactly two digits that denote it.
   */
  lemma {:induction false} PaddedDecimal(n: nat)
    requires n < 100
    ensures var p := PadLeft2(Decimal(n));
      |p| == 2 && IsDigit(p[0]) && IsDigit(p[1])
      && 10 * DigitValue(p[0]) + DigitValue(p[1]) == n
  {
    var s := Decimal(n);
    var p := PadLeft2(s);
    if n < 10 {
      assert p == "0" + s;
      assert DigitsValue(s) == DigitValue(s[0]) by {
        assert s[..|s| - 1] == [];
      }
    } else {
      assert s == Decimal(n / 10) + [DigitChar(n % 10)];
      assert p == s;
      assert |Decimal(n / 10)| == 1;
      assert s[..1] == Decimal(n / 10);
      assert DigitsValue(s[..1]) == DigitValue(s[0]) by {
        assert s[..1][..0] == [];
      }
    }
  }

  /** The URL for a partition given as numbers, as the scheduler renders them. */
  function PartitionUrl(year: nat, month: nat, day: nat, hour: nat): (url: string)
    ensures 1 <= month <= 12 && 1 <= day <= 31 && hour <= 23 ==>
      ParseDumpUrl(url)
      == Some((Decimal(year), PadLeft2(Decimal(month)), PadLeft2(Decimal(day)), PadLeft2(Decimal(hour))))
  {
    DigitsHaveNo(Decimal(year), '/');
    DumpUrl(Decimal(year), Decimal(month), Decimal(day), Decimal(hour))
  }

  lemma PartitionFieldsExample()
    ensures Decimal(2024) == "2024"
    ensures Decimal(3) == "3" && Decimal(5) == "5" && Decimal(9) == "9"
  {
    assert Decimal(2) == "2";
    assert Decimal(20) == "20";
    assert Decimal(202) == "202";
  }

  lemma PaddedFieldsExample()
    ensures PadLeft2("3") == "03" && PadLeft2("5") == "05" && PadLeft2("9") == "09"
  {
  }

  /**
   * The worked example, 2024-03-05 hour 9: the URL is
   * `https://dumps.wikimedia.org/other/pageviews/2024/2024-03/pageviews-20240305-090000.gz`.
   */
  lemma PartitionUrlExample()
    ensures PartitionUrl(2024, 3, 5, 9) == DumpRoot + DumpPath("2024", "03", "05", "09")
    ensures ParseDumpUrl(PartitionUrl(2024, 3, 5, 9)) == Some(("2024", "03", "05", "09"))
  {
    PartitionFieldsExample();
    PaddedFieldsExample();
  }
}
