/**
 * The first half of `writing_insert_script`: each line of the decompressed
 * dump is split on single spaces into exactly four fields; lines of the
 * "en" project whose view count exceeds 100 store `result[page_title] =
 * view_counts` in an insertion-ordered dict. A line that does not unpack
 * into four fields, or an "en" line whose count is not an integer, raises
 * and ends the whole run.
 */
module Aggregation {
  import opened Wrappers
  import opened Text

  /** Why a line makes the run raise. */
  datatype ParseError =
    | UnpackError(fields: nat)   // the line has `fields` fields instead of four
    | IntError(literal: string)  // `int()` of a count that is not an integer

  /** What one input line does to the dict. */
  datatype LineOutcome = Keep(title: string, count: string) | Skip | Raise(error: ParseError)

  /** Unpacking, filter and the value that would be stored, for one line. */
  function ClassifyLine(line: string): (r: LineOutcome)
    ensures r.Keep? ==> ' ' !in r.title && ' ' !in r.count
    ensures r.Keep? ==> ParseInt(r.count).Some? && ParseInt(r.count).value > 100
  {
    var fields := Split(line, ' ');
    if |fields| != 4 then Raise(UnpackError(|fields|))
    // `and` short-circuits: the count of a line of another project is never parsed
    else if fields[0] != "en" then Skip
    else match ParseInt(fields[2])
      case None => Raise(IntError(fields[2]))
      case Some(n) => if n > 100 then Keep(fields[1], fields[2]) else Skip
  }

  /** A line with other than three spaces does not unpack into four fields. */
  lemma ClassifyFieldCount(line: string)
    requires CountChar(line, ' ') != 3
    ensures ClassifyLine(line) == Raise(UnpackError(CountChar(line, ' ') + 1))
  {
  }

  /** The fields of a line with three spaces. */
  lemma {:induction false} JoinFour(dc: string, t: string, c: string, rest: string)
    ensures Join([dc, t, c, rest], ' ') == dc + " " + t + " " + c + " " + rest
  {
    var f := [dc, t, c, rest];
    assert f[1..] == [t, c, rest];
    assert f[1..][1..] == [c, rest];
    assert f[1..][1..][1..] == [rest];
    assert Join([c, rest], ' ') == c + " " + rest;
    assert Join([t, c, rest], ' ') == t + " " + (c + " " + rest);
    assert Join(f, ' ') == dc + " " + (t + " " + (c + " " + rest));
  }

  /** Every line with exactly three spaces is four space-free fields joined by spaces. */
  lemma FourFields(line: string)
    requires CountChar(line, ' ') == 3
    ensures var f := Split(line, ' ');
      line == f[0] + " " + f[1] + " " + f[2] + " " + f[3]
  {
    var f := Split(line, ' ');
    JoinSplit(line, ' ');
    JoinFour(f[0], f[1], f[2], f[3]);
    assert f == [f[0], f[1], f[2], f[3]];
  }

  /**
   * The outcome of a four-field line: only "en" lines have their count
   * parsed, and they are kept exactly when it is an integer above 100.
   */
  lemma ClassifyFourFields(dc: string, t: string, c: string, rest: string)
    requires ' ' !in dc && ' ' !in t && ' ' !in c && ' ' !in rest
    ensures ClassifyLine(dc + " " + t + " " + c + " " + rest)
         == if dc != "en" then Skip
            else if ParseInt(c).None? then Raise(IntError(c))
            else if ParseInt(c).value > 100 then Keep(t, c)
            else Skip
  {
    JoinFour(dc, t, c, rest);
    SplitJoin([dc, t, c, rest], ' ');
  }

  /**
   * A line contributes `t -> c` exactly when it reads "en t c rest" with
   * space-free fields and `c` an integer above 100.
   */
  lemma ClassifyKeepIff(line: string, t: string, c: string)
    ensures ClassifyLine(line) == Keep(t, c)
        <==> exists rest :: ' ' !in t && ' ' !in c && ' ' !in rest
               && line == "en" + " " + t + " " + c + " " + rest
               && ParseInt(c).Some? && ParseInt(c).value > 100
  {
    if ClassifyLine(line) == Keep(t, c) {
      var f := Split(line, ' ');
      FourFields(line);
      assert line == "en" + " " + t + " " + c + " " + f[3];
    }
    if exists rest :: ' ' !in t && ' ' !in c && ' ' !in rest
         && line == "en" + " " + t + " " + c + " " + rest
         && ParseInt(c).Some? && ParseInt(c).value > 100 {
      var rest :| ' ' !in t && ' ' !in c && ' ' !in rest
         && line == "en" + " " + t + " " + c + " " + rest
         && ParseInt(c).Some? && ParseInt(c).value > 100;
      assert ' ' !in "en";
      ClassifyFourFields("en", t, c, rest);
    }
  }

  /**
   * A Python dict: its keys in order of first insertion and the value
   * stored for each.
   */
  datatype Dict = Dict(keys: seq<string>, vals: map<string, string>)

  /** The keys are listed once each, and exactly the stored keys are listed. */
  ghost predicate Valid(d: Dict)
  {
    && (forall i, j :: 0 <= i < j < |d.keys| ==> d.keys[i] != d.keys[j])
    && (forall t :: t in d.vals <==> t in d.keys)
  }

  /**
   * `d[t] = c`: a new key goes last, a present key keeps its place; either
   * way the stored value becomes `c`.
   */
  function Put(d: Dict, t: string, c: string): (r: Dict)
    ensures Valid(d) ==> Valid(r)
    ensures r.vals == d.vals[t := c]
    ensures d.keys <= r.keys && |r.keys| <= |d.keys| + 1
  {
    if t in d.vals then Dict(d.keys, d.vals[t := c]) else Dict(d.keys + [t], d.vals[t := c])
  }

  /** What each line of the input does, in order. */
  function Outcomes(lines: seq<string>): seq<LineOutcome>
  {
    seq(|lines|, i requires 0 <= i < |lines| => ClassifyLine(lines[i]))
  }

  /**
   * The dict after a run of line outcomes, or the error of the first line
   * that raises.
   */
  function Fold(outs: seq<LineOutcome>): (r: Result<Dict, ParseError>)
    ensures r.Success? ==> Valid(r.value)
  {
    if outs == [] then Success(Dict([], map[]))
    else
      match Fold(outs[..|outs| - 1])
      case Failure(e) => Failure(e)
      case Success(acc) =>
        match outs[|outs| - 1]
        case Raise(e) => Failure(e)
        case Skip => Success(acc)
        case Keep(t, c) => Success(Put(acc, t, c))
  }

  /**
   * The dict `writing_insert_script` builds from the lines of the dump. It
   * is a well-formed dict, and there is none exactly when some line raises.
   */
  function Aggregate(lines: seq<string>): (r: Result<Dict, ParseError>)
    ensures r.Success? ==> Valid(r.value)
    ensures r.Failure? <==> exists i :: 0 <= i < |lines| && ClassifyLine(lines[i]).Raise?
  {
    var outs := Outcomes(lines);
    FoldRaises(outs);
    assert forall i :: RaisesAt(outs, i) <==> 0 <= i < |lines| && ClassifyLine(lines[i]).Raise?;
    Fold(outs)
  }

  ghost predicate KeepsAt(outs: seq<LineOutcome>, i: int, t: string)
  {
    0 <= i < |outs| && outs[i].Keep? && outs[i].title == t
  }

  ghost predicate RaisesAt(outs: seq<LineOutcome>, i: int)
  {
    0 <= i < |outs| && outs[i].Raise?
  }

  /** `t` was last kept at line `i`: no later line keeps it. */
  ghost predicate LastKeepAt(outs: seq<LineOutcome>, i: int, t: string)
  {
    KeepsAt(outs, i, t) && forall j :: i < j < |outs| ==> !KeepsAt(outs, j, t)
  }

  /** What one more line does to the dict built from the lines before it. */
  lemma FoldStep(outs: seq<LineOutcome>, i: nat)
    requires i < |outs| && Fold(outs[..i]).Success?
    ensures Fold(outs[..i + 1]) == match outs[i]
      case Raise(e) => Failure(e)
      case Skip => Fold(outs[..i])
      case Keep(t, c) => Success(Put(Fold(outs[..i]).value, t, c))
  {
    assert outs[..i + 1][..i] == outs[..i];
  }

  /** Once a prefix has raised, the run has raised with that error. */
  lemma {:induction false} FoldFailureSticks(outs: seq<LineOutcome>, k: nat)
    requires k <= |outs|
    requires Fold(outs[..k]).Failure?
    ensures Fold(outs) == Fold(outs[..k])
    decreases |outs| - k
  {
    if k < |outs| {
      var p := outs[..k + 1];
      assert p[..k] == outs[..k];
      assert Fold(p) == Fold(outs[..k]);
      FoldFailureSticks(outs, k + 1);
    } else {
      assert outs[..k] == outs;
    }
  }

  /** A line that raises after lines that did not ends the whole run with its error. */
  lemma RaiseEndsRun(lines: seq<string>, i: nat)
    requires i < |lines| && Fold(Outcomes(lines)[..i]).Success? && ClassifyLine(lines[i]).Raise?
    ensures Aggregate(lines) == Failure(ClassifyLine(lines[i]).error)
  {
    var outs := Outcomes(lines);
    FoldStep(outs, i);
    FoldFailureSticks(outs, i + 1);
  }

  /**
   * The run raises exactly when some line raises, and then with the error
   * of the first such line: no partial dict is ever produced.
   */
  lemma {:induction false} FoldRaises(outs: seq<LineOutcome>)
    ensures Fold(outs).Failure? <==> exists i :: RaisesAt(outs, i)
    ensures Fold(outs).Failure? ==>
      exists i :: RaisesAt(outs, i) && outs[i].error == Fold(outs).error
                  && forall j :: 0 <= j < i ==> !RaisesAt(outs, j)
  {
    if outs != [] {
      var n := |outs| - 1;
      var p := outs[..n];
      FoldRaises(p);
      assert forall j :: 0 <= j < n ==> (RaisesAt(p, j) <==> RaisesAt(outs, j));
      if Fold(p).Failure? {
        var i :| RaisesAt(p, i) && p[i].error == Fold(p).error
                 && forall j :: 0 <= j < i ==> !RaisesAt(p, j);
        assert RaisesAt(outs, i);
      } else if outs[n].Raise? {
        assert RaisesAt(outs, n);
      } else {
        assert !RaisesAt(outs, n);
      }
    }
  }

  /** A title is stored exactly when some line keeps it. */
  lemma {:induction false} FoldKeys(outs: seq<LineOutcome>)
    requires Fold(outs).Success?
    ensures forall t :: t in Fold(outs).value.vals <==> exists i :: KeepsAt(outs, i, t)
  {
    if outs != [] {
      var n := |outs| - 1;
      var p := outs[..n];
      FoldKeys(p);
      assert forall j, t :: 0 <= j < n ==> (KeepsAt(p, j, t) <==> KeepsAt(outs, j, t));
      forall t ensures t in Fold(outs).value.vals <==> exists i :: KeepsAt(outs, i, t) {
        if KeepsAt(outs, n, t) {
          assert t in Fold(outs).value.vals;
        } else if exists i :: KeepsAt(outs, i, t) {
          var i :| KeepsAt(outs, i, t);
          assert KeepsAt(p, i, t);
        }
      }
    }
  }

  /**
   * Last write wins: the stored value is the count of the last line that
   * keeps the title, as it was written in that line; counts are not summed.
   */
  lemma {:induction false} FoldLastWins(outs: seq<LineOutcome>)
    requires Fold(outs).Success?
    ensures forall t :: t in Fold(outs).value.vals ==>
      exists i :: LastKeepAt(outs, i, t) && outs[i].count == Fold(outs).value.vals[t]
  {
    if outs != [] {
      var n := |outs| - 1;
      var p := outs[..n];
      FoldLastWins(p);
      var acc := Fold(p).value;
      var d := Fold(outs).value;
      assert d == if outs[n].Keep? then Put(acc, outs[n].title, outs[n].count) else acc;
      forall t | t in d.vals
        ensures exists i :: LastKeepAt(outs, i, t) && outs[i].count == d.vals[t]
      {
        if KeepsAt(outs, n, t) {
          assert LastKeepAt(outs, n, t);
        } else {
          assert t in acc.vals && d.vals[t] == acc.vals[t];
          var i :| LastKeepAt(p, i, t) && p[i].count == acc.vals[t];
          forall j | i < j < |outs| ensures !KeepsAt(outs, j, t) {
            if j < n {
              assert !KeepsAt(p, j, t);
              assert p[j] == outs[j];
            }
          }
          assert p[i] == outs[i];
        }
      }
    }
  }

  /** Index of the first line that keeps `t`, or `|outs|` when none does. */
  function FirstKeep(outs: seq<LineOutcome>, t: string): (k: nat)
    ensures k <= |outs|
    ensures k < |outs| ==> outs[k].Keep? && outs[k].title == t
    ensures forall i :: 0 <= i < k ==> !KeepsAt(outs, i, t)
  {
    if outs == [] then 0
    else if outs[0].Keep? && outs[0].title == t then 0
    else
      var k := FirstKeep(outs[1..], t);
      assert forall i :: 1 <= i < k + 1 ==> !KeepsAt(outs[1..], i - 1, t) && outs[i] == outs[1..][i - 1];
      k + 1
  }

  /** Appending a line moves no first keep that already happened. */
  lemma FirstKeepSnoc(pre: seq<LineOutcome>, last: LineOutcome, t: string)
    ensures FirstKeep(pre + [last], t)
         == if FirstKeep(pre, t) < |pre| then FirstKeep(pre, t)
            else if last.Keep? && last.title == t then |pre| else |pre| + 1
  {
    var outs := pre + [last];
    var k, k' := FirstKeep(pre, t), FirstKeep(outs, t);
    assert forall i :: 0 <= i < |pre| ==> outs[i] == pre[i];
    assert k' < |pre| ==> KeepsAt(pre, k', t);
    if k < |pre| {
      assert KeepsAt(outs, k, t);
      assert k' == k;
    } else if last.Keep? && last.title == t {
      assert KeepsAt(outs, |pre|, t);
      assert k' == |pre|;
    } else {
      assert !KeepsAt(outs, |pre|, t);
    }
  }

  /**
   * The keys are listed in the order in which lines first keep them, and
   * every key is kept by some line.
   */
  ghost predicate InFirstKeepOrder(outs: seq<LineOutcome>, keys: seq<string>)
  {
    && (forall q :: 0 <= q < |keys| ==> FirstKeep(outs, keys[q]) < |outs|)
    && (forall p, q :: 0 <= p < q < |keys| ==> FirstKeep(outs, keys[p]) < FirstKeep(outs, keys[q]))
  }

  /** Insertion order: the dict lists its titles by their first qualifying line. */
  lemma {:induction false} FoldFirstOrder(outs: seq<LineOutcome>)
    requires Fold(outs).Success?
    ensures InFirstKeepOrder(outs, Fold(outs).value.keys)
  {
    if outs != [] {
      var n := |outs| - 1;
      var pre := outs[..n];
      var last := outs[n];
      FoldFirstOrder(pre);
      var acc := Fold(pre).value;
      var keys := Fold(outs).value.keys;
      assert outs == pre + [last];
      forall t ensures FirstKeep(outs, t) == FirstKeep(pre + [last], t) {
        FirstKeepSnoc(pre, last, t);
      }
      forall q | 0 <= q < |acc.keys| ensures FirstKeep(outs, acc.keys[q]) == FirstKeep(pre, acc.keys[q]) {
        FirstKeepSnoc(pre, last, acc.keys[q]);
      }
      if last.Keep? && last.title !in acc.vals {
        assert keys == acc.keys + [last.title];
        FoldKeys(pre);
        FirstKeepSnoc(pre, last, last.title);
        var title := last.title;
        var k := FirstKeep(pre, title);
        assert k < n ==> KeepsAt(pre, k, title);
        assert k == n;
        assert FirstKeep(outs, keys[|keys| - 1]) == n;
      } else {
        assert keys == acc.keys;
      }
    }
  }

  /**
   * Every stored value is text that `ParseInt` reads as an integer above
   * 100. `ParseInt` accepts only an optionally signed run of ASCII digits.
   */
  lemma AggregateValuesAreCounts(lines: seq<string>)
    requires Aggregate(lines).Success?
    ensures forall t :: t in Aggregate(lines).value.vals ==>
      ParseInt(Aggregate(lines).value.vals[t]).Some? && ParseInt(Aggregate(lines).value.vals[t]).value > 100
  {
    var outs := Outcomes(lines);
    FoldLastWins(outs);
    forall t | t in Aggregate(lines).value.vals
      ensures ParseInt(Aggregate(lines).value.vals[t]).Some? && ParseInt(Aggregate(lines).value.vals[t]).value > 100
    {
      var i :| LastKeepAt(outs, i, t) && outs[i].count == Fold(outs).value.vals[t];
      assert outs[i] == ClassifyLine(lines[i]);
    }
  }

  /**
   * The outcome of a four-field line whose count is written in decimal,
   * whatever its fourth field holds.
   */
  lemma ClassifyCountLine(dc: string, t: string, n: nat, rest: string, line: string)
    requires ' ' !in dc && ' ' !in t && ' ' !in rest
    requires line == dc + " " + t + " " + Decimal(n) + " " + rest
    ensures ClassifyLine(line) == if dc == "en" && n > 100 then Keep(t, Decimal(n)) else Skip
  {
    DigitsHaveNo(Decimal(n), ' ');
    ParseDecimal(n);
    ClassifyFourFields(dc, t, Decimal(n), rest);
  }

  lemma DecimalHundreds()
    ensures Decimal(150) == "150" && Decimal(200) == "200"
  {
    assert Decimal(1) == "1" && Decimal(15) == "15";
    assert Decimal(2) == "2" && Decimal(20) == "20";
  }

  /** `en Dog 150`, `en Dog 200` and `en Dog 50`: two qualifying lines and one that does not. */
  lemma DogLines()
    ensures ClassifyLine("en Dog 150 0\n") == Keep("Dog", "150")
    ensures ClassifyLine("en Dog 200 0\n") == Keep("Dog", "200")
    ensures ClassifyLine("en Dog 50 0\n") == Skip
  {
    DogLine150();
    DogLine200();
    DogLine50();
  }

  lemma DogLine150()
    ensures ClassifyLine("en Dog 150 0\n") == Keep("Dog", "150")
  {
    DecimalHundreds();
    ClassifyCountLine("en", "Dog", 150, "0\n", "en Dog 150 0\n");
  }

  lemma DogLine200()
    ensures ClassifyLine("en Dog 200 0\n") == Keep("Dog", "200")
  {
    DecimalHundreds();
    ClassifyCountLine("en", "Dog", 200, "0\n", "en Dog 200 0\n");
  }

  lemma DogLine50()
    ensures ClassifyLine("en Dog 50 0\n") == Skip
  {
    assert Decimal(5) == "5" && Decimal(50) == "50";
    ClassifyCountLine("en", "Dog", 50, "0\n", "en Dog 50 0\n");
  }

  /** The dict after keeping `Dog` with 150, then with 200, then skipping a line. */
  lemma FoldDogExample()
    ensures Fold([Keep("Dog", "150"), Keep("Dog", "200"), Skip]) == Success(Dict(["Dog"], map["Dog" := "200"]))
  {
    var o1 := [Keep("Dog", "150")];
    var o2 := o1 + [Keep("Dog", "200")];
    var o3 := o2 + [Skip];
    assert o1[..0] == [];
    assert Fold(o1) == Success(Put(Dict([], map[]), "Dog", "150"));
    var none: seq<string> := [];
    assert none + ["Dog"] == ["Dog"];
    assert Fold(o1) == Success(Dict(["Dog"], map["Dog" := "150"]));
    assert o2[..1] == o1;
    assert map["Dog" := "150"]["Dog" := "200"] == map["Dog" := "200"];
    assert Fold(o2) == Success(Dict(["Dog"], map["Dog" := "200"]));
    assert o3[..2] == o2;
    assert o3 == [Keep("Dog", "150"), Keep("Dog", "200"), Skip];
  }

  lemma OutcomesOfThree(a: string, b: string, c: string)
    ensures Outcomes([a, b, c]) == [ClassifyLine(a), ClassifyLine(b), ClassifyLine(c)]
  {
  }

  /**
   * Last write wins: `en Dog 150`, then `en Dog 200`, then `en Dog 50`
   * leaves `Dog -> "200"`; the counts are not summed and the last line,
   * which does not qualify, changes nothing.
   */
  lemma LastWriteWinsExample()
    ensures Aggregate(["en Dog 150 0\n", "en Dog 200 0\n", "en Dog 50 0\n"])
         == Success(Dict(["Dog"], map["Dog" := "200"]))
  {
    DogLines();
    FoldDogExample();
    OutcomesOfThree("en Dog 150 0\n", "en Dog 200 0\n", "en Dog 50 0\n");
  }
}
