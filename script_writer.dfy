/**
 * `writing_insert_script`: reads the lines of the decompressed dump into an
 * insertion-ordered dict, then writes one INSERT statement per stored title,
 * in dict order. The lines are given as a sequence (file reading and the
 * decoding of the dump are not modelled) and the writes to the SQL file are
 * returned as the sequence of texts passed to `f.write`. When a line raises,
 * the second `with` block is never reached: no statement is written.
 */
module ScriptWriter {
  import opened Wrappers
  import opened Text
  import opened SqlQuote
  import opened Aggregation
  import opened Emitter

  /** The statements for the keys of a dict, in dict order. */
  function Emit(keys: seq<string>, vals: map<string, string>, d: string): (stmts: seq<string>)
    requires forall t :: t in keys ==> t in vals
    ensures |stmts| == |keys|
  {
    seq(|keys|, i requires 0 <= i < |keys| => Statement(keys[i], vals[keys[i]], d))
  }

  /**
   * What one run writes, or the error that ends it before anything is
   * written: it fails exactly when some line raises, with the error of the
   * first such line, and otherwise writes one statement per stored title.
   */
  function ScriptFor(lines: seq<string>, d: string): (r: Result<seq<string>, ParseError>)
    ensures r.Failure? <==> exists i :: 0 <= i < |lines| && ClassifyLine(lines[i]).Raise?
    ensures r.Failure? ==>
      exists i :: 0 <= i < |lines| && ClassifyLine(lines[i]) == Raise(r.error)
                  && forall j :: 0 <= j < i ==> !ClassifyLine(lines[j]).Raise?
    ensures r.Success? ==> |r.value| == |Aggregate(lines).value.keys|
  {
    var outs := Outcomes(lines);
    FoldRaises(outs);
    assert forall i :: RaisesAt(outs, i) <==> 0 <= i < |lines| && ClassifyLine(lines[i]).Raise?;
    match Aggregate(lines)
    case Failure(e) => Failure(e)
    case Success(dict) => Success(Emit(dict.keys, dict.vals, d))
  }

  /**
   * `writing_insert_script`: the dict is built first, and the statements
   * are written only when no line raised.
   */
  method WritingInsertScript(lines: seq<string>, d: string) returns (r: Result<seq<string>, ParseError>)
    ensures r == ScriptFor(lines, d)
  {
    var parsed := ReadDump(lines);
    if parsed.Failure? {
      return Failure(parsed.error);
    }
    var out := WriteStatements(parsed.value.keys, parsed.value.vals, d);
    return Success(out);
  }

  /**
   * The first loop: fills `keys` and `result` line by line; a line that
   * raises ends the run.
   */
  method ReadDump(lines: seq<string>) returns (r: Result<Dict, ParseError>)
    ensures r == Aggregate(lines)
  {
    ghost var outs := Outcomes(lines);
    var keys: seq<string> := [];
    var result: map<string, string> := map[];
    var i := 0;
    while i < |lines|
      invariant 0 <= i <= |lines|
      invariant Fold(outs[..i]) == Success(Dict(keys, result))
    {
      FoldStep(outs, i);
      var fields := Split(lines[i], ' ');
      if |fields| != 4 {
        RaiseEndsRun(lines, i);
        return Failure(UnpackError(|fields|));
      }
      if fields[0] == "en" {
        var n := ParseInt(fields[2]);
        if n.None? {
          RaiseEndsRun(lines, i);
          return Failure(IntError(fields[2]));
        }
        if n.value > 100 {
          if fields[1] !in result {
            keys := keys + [fields[1]];
          }
          result := result[fields[1] := fields[2]];
        }
      }
      i := i + 1;
    }
    assert outs[..i] == outs;
    return Success(Dict(keys, result));
  }

  /** The second loop: one statement per key, in dict order. */
  method WriteStatements(keys: seq<string>, result: map<string, string>, d: string) returns (out: seq<string>)
    requires forall t :: t in keys ==> t in result
    ensures out == Emit(keys, result, d)
  {
    out := [];
    var j := 0;
    while j < |keys|
      invariant 0 <= j <= |keys|
      invariant |out| == j
      invariant forall k :: 0 <= k < j ==> out[k] == Statement(keys[k], result[keys[k]], d)
    {
      out := out + [Statement(keys[j], result[keys[j]], d)];
      j := j + 1;
    }
  }

  /**
   * One statement per distinct qualifying title: each statement is for a
   * title some line keeps, with the count of the last line keeping it; every
   * kept title has a statement; titles are in order of their first
   * qualifying line, so none is repeated.
   */
  lemma ScriptContents(lines: seq<string>, d: string)
    requires ScriptFor(lines, d).Success?
    ensures var s := ScriptFor(lines, d).value;
            var titles := Aggregate(lines).value.keys;
            var outs := Outcomes(lines);
      && |s| == |titles|
      && (forall i :: 0 <= i < |s| ==>
            exists j :: LastKeepAt(outs, j, titles[i]) && s[i] == Statement(titles[i], outs[j].count, d))
      && (forall j :: 0 <= j < |outs| && outs[j].Keep? ==> outs[j].title in titles)
      && (forall i, k :: 0 <= i < k < |titles| ==> FirstKeep(outs, titles[i]) < FirstKeep(outs, titles[k]))
  {
    var outs := Outcomes(lines);
    var dict := Aggregate(lines).value;
    var s := ScriptFor(lines, d).value;
    FoldKeys(outs);
    FoldLastWins(outs);
    FoldFirstOrder(outs);
    forall i | 0 <= i < |s|
      ensures exists j :: LastKeepAt(outs, j, dict.keys[i]) && s[i] == Statement(dict.keys[i], outs[j].count, d)
    {
      assert dict.keys[i] in dict.vals;
      var j :| LastKeepAt(outs, j, dict.keys[i]) && outs[j].count == dict.vals[dict.keys[i]];
    }
    forall j | 0 <= j < |outs| && outs[j].Keep?
      ensures outs[j].title in dict.keys
    {
      assert KeepsAt(outs, j, outs[j].title);
    }
  }

  /**
   * When the date holds no quote, each statement reads back as its displayed
   * title, the count stored for it and the date, and no two statements show
   * the same title.
   */
  lemma ScriptReadsBack(lines: seq<string>, d: string)
    requires ScriptFor(lines, d).Success? && '\'' !in d
    ensures var s := ScriptFor(lines, d).value;
            var dict := Aggregate(lines).value;
      && (forall i :: 0 <= i < |s| ==>
            ParseStatement(s[i]) == Some((ReplaceUnderscores(dict.keys[i]), dict.vals[dict.keys[i]], d)))
      && (forall i, k :: 0 <= i < k < |s| ==> ParseStatement(s[i]).value.0 != ParseStatement(s[k]).value.0)
  {
    var outs := Outcomes(lines);
    var dict := Aggregate(lines).value;
    var s := ScriptFor(lines, d).value;
    FoldKeys(outs);
    AggregateValuesAreCounts(lines);
    forall i | 0 <= i < |s|
      ensures ' ' !in dict.keys[i] && ' ' !in dict.vals[dict.keys[i]]
      ensures ParseStatement(s[i]) == Some((ReplaceUnderscores(dict.keys[i]), dict.vals[dict.keys[i]], d))
    {
      var t := dict.keys[i];
      assert t in dict.vals;
      var j :| KeepsAt(outs, j, t);
      assert outs[j] == ClassifyLine(lines[j]);
    }
    forall i, k | 0 <= i < k < |s|
      ensures ParseStatement(s[i]).value.0 != ParseStatement(s[k]).value.0
    {
      StatementTitlesDiffer(dict.keys[i], dict.vals[dict.keys[i]], dict.keys[k], dict.vals[dict.keys[k]], d);
    }
  }

  lemma ExampleLines()
    ensures ClassifyLine("en Cat 150 0\n") == Keep("Cat", "150")
    ensures ClassifyLine("en Dog 50 0\n") == Skip
    ensures ClassifyLine("fr Chien 500 0\n") == Skip
    ensures ClassifyLine("en New_York's 300 0\n") == Keep("New_York's", "300")
  {
    CatLine();
    DogLine50();
    ChienLine();
    NewYorkLine();
  }

  lemma CatLine()
    ensures ClassifyLine("en Cat 150 0\n") == Keep("Cat", "150")
  {
    DecimalHundreds();
    ClassifyCountLine("en", "Cat", 150, "0\n", "en Cat 150 0\n");
  }

  lemma ChienLine()
    ensures ClassifyLine("fr Chien 500 0\n") == Skip
  {
    assert Decimal(5) == "5" && Decimal(50) == "50" && Decimal(500) == "500";
    ClassifyCountLine("fr", "Chien", 500, "0\n", "fr Chien 500 0\n");
  }

  lemma DecimalThreeHundred()
    ensures Decimal(300) == "300"
  {
    assert Decimal(3) == "3" && Decimal(30) == "30";
  }

  lemma NewYorkLine()
    ensures ClassifyLine("en New_York's 300 0\n") == Keep("New_York's", "300")
  {
    DecimalThreeHundred();
    ClassifyCountLine("en", "New_York's", 300, "0\n", "en New_York's 300 0\n");
  }

  lemma OutcomesOfFour(a: string, b: string, c: string, e: string)
    ensures Outcomes([a, b, c, e]) == [ClassifyLine(a), ClassifyLine(b), ClassifyLine(c), ClassifyLine(e)]
  {
  }

  /** The dict after keeping `Cat`, skipping two lines and keeping `New_York's`. */
  lemma FoldExample()
    ensures Fold([Keep("Cat", "150"), Skip, Skip, Keep("New_York's", "300")])
         == Success(Dict(["Cat", "New_York's"], map["Cat" := "150", "New_York's" := "300"]))
  {
    var o1 := [Keep("Cat", "150")];
    var o3 := o1 + [Skip, Skip];
    var o4 := o3 + [Keep("New_York's", "300")];
    var none: seq<string> := [];
    assert o1[..0] == [];
    assert none + ["Cat"] == ["Cat"];
    assert Fold(o1) == Success(Dict(["Cat"], map["Cat" := "150"]));
    assert o3[..2] == o1 + [Skip];
    assert (o1 + [Skip])[..1] == o1;
    assert Fold(o3) == Success(Dict(["Cat"], map["Cat" := "150"]));
    assert o4[..3] == o3;
    assert "New_York's" !in map["Cat" := "150"];
    assert ["Cat"] + ["New_York's"] == ["Cat", "New_York's"];
    assert o4 == [Keep("Cat", "150"), Skip, Skip, Keep("New_York's", "300")];
  }

  lemma EmitTwo(k1: string, k2: string, vals: map<string, string>, d: string)
    requires k1 in vals && k2 in vals
    ensures Emit([k1, k2], vals, d) == [Statement(k1, vals[k1], d), Statement(k2, vals[k2], d)]
  {
  }

  lemma ExampleAggregate()
    ensures Aggregate(["en Cat 150 0\n", "en Dog 50 0\n", "fr Chien 500 0\n", "en New_York's 300 0\n"])
         == Success(Dict(["Cat", "New_York's"], map["Cat" := "150", "New_York's" := "300"]))
  {
    ExampleLines();
    FoldExample();
    OutcomesOfFour("en Cat 150 0\n", "en Dog 50 0\n", "fr Chien 500 0\n", "en New_York's 300 0\n");
  }

  /**
   * The four-line dump `en Cat 150`, `en Dog 50`, `fr Chien 500`,
   * `en New_York's 300` gives exactly two statements, for `Cat` with 150 and
   * for `New_York's` (shown as `New York''s`) with 300, whatever the date.
   */
  lemma EndToEndExample(d: string)
    ensures ScriptFor(["en Cat 150 0\n", "en Dog 50 0\n", "fr Chien 500 0\n", "en New_York's 300 0\n"], d)
         == Success([Statement("Cat", "150", d), Statement("New_York's", "300", d)])
    ensures RenderTitle("New_York's") == "New York''s"
  {
    ExampleAggregate();
    EmitTwo("Cat", "New_York's", map["Cat" := "150", "New_York's" := "300"], d);
    RenderTitleExample();
  }
}
