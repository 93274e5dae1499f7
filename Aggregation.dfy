/**
 * `readEnergyData` (index.js:60-80): the profiler's sample file is split on
 * '\n', every piece is read with `Number`, the values are summed in file order,
 * and the report holds the sum, the average per piece and the number of pieces.
 */
module Aggregation {
  import opened Wrappers
  import opened JsNumber

  /** The report the action stores and compares (`total_energy`, `power_avg`, `duration`). */
  datatype EnergyReport = EnergyReport(totalEnergy: real, powerAvg: real, duration: nat)

  /** Number of occurrences of `c` in `s`. */
  function Count(s: string, c: char): nat {
    if s == [] then 0 else (if s[0] == c then 1 else 0) + Count(s[1..], c)
  }

  /** `s.split('\n')`: the maximal newline-free pieces between newlines, empty ones included. */
  function Split(s: string): (r: seq<string>)
    ensures |r| == Count(s, '\n') + 1
    ensures forall i :: 0 <= i < |r| ==> '\n' !in r[i]
  {
    if s == [] then
      [[]]
    else
      var rest := Split(s[1..]);
      if s[0] == '\n' then [[]] + rest else [[s[0]] + rest[0]] + rest[1..]
  }

  /** `pieces.join('\n')`, the inverse of Split. */
  function Join(pieces: seq<string>): string
    requires |pieces| >= 1
  {
    if |pieces| == 1 then pieces[0] else pieces[0] + "\n" + Join(pieces[1..])
  }

  lemma {:induction false} JoinSplit(s: string)
    ensures Join(Split(s)) == s
  {
    if s != [] {
      JoinSplit(s[1..]);
      var rest := Split(s[1..]);
      if s[0] != '\n' && |rest| > 1 {
        assert Join(Split(s)) == ([s[0]] + rest[0]) + "\n" + Join(rest[1..]);
      }
    }
  }

  lemma {:induction false} SplitJoin(pieces: seq<string>)
    requires |pieces| >= 1
    requires forall i :: 0 <= i < |pieces| ==> '\n' !in pieces[i]
    ensures Split(Join(pieces)) == pieces
  {
    if |pieces| == 1 {
      SplitPieceAlone(pieces[0]);
    } else {
      SplitJoin(pieces[1..]);
      SplitPiece(pieces[0], Join(pieces[1..]));
    }
  }

  /** A newline-free piece is a single piece. */
  lemma {:induction false} SplitPieceAlone(piece: string)
    requires '\n' !in piece
    ensures Split(piece) == [piece]
  {
    if piece != [] {
      SplitPieceAlone(piece[1..]);
      assert [piece[0]] + piece[1..] == piece;
    }
  }

  /** A newline-free piece, a newline, and more text. */
  lemma {:induction false} SplitPiece(piece: string, rest: string)
    requires '\n' !in piece
    ensures Split(piece + "\n" + rest) == [piece] + Split(rest)
  {
    if piece != [] {
      SplitPiece(piece[1..], rest);
      assert (piece + "\n" + rest)[1..] == piece[1..] + "\n" + rest;
      assert [piece[0]] + piece[1..] == piece;
    } else {
      assert [] + "\n" + rest == "\n" + rest;
      assert ("\n" + rest)[1..] == rest;
    }
  }

  /** A trailing newline adds one more, empty, piece. */
  lemma {:induction false} SplitTrailingNewline(s: string)
    ensures Split(s + "\n") == Split(s) + [[]]
  {
    if s == [] {
      assert [] + "\n" == "\n";
      assert "\n"[1..] == [];
    } else {
      assert (s + "\n")[1..] == s[1..] + "\n";
      SplitTrailingNewline(s[1..]);
    }
  }

  /** The value `Number` gives each piece, in file order (None: not a number). */
  function Samples(pieces: seq<string>): (vs: seq<Option<real>>)
    ensures |vs| == |pieces|
  {
    if pieces == [] then [] else Samples(pieces[..|pieces| - 1]) + [ParseNumber(pieces[|pieces| - 1])]
  }

  /** Each sample value is what `Number` reads from the piece at the same place. */
  lemma {:induction false} SampleAt(pieces: seq<string>, i: nat)
    requires i < |pieces|
    ensures Samples(pieces)[i] == ParseNumber(pieces[i])
  {
    if i < |pieces| - 1 {
      SampleAt(pieces[..|pieces| - 1], i);
    }
  }

  /** No value is not-a-number. */
  predicate AllNumbers(vs: seq<Option<real>>) {
    forall i :: 0 <= i < |vs| ==> vs[i].Some?
  }

  /**
   * The running sum of the loop at index.js:65-68 over the sample values: their
   * in-order sum, or None (not-a-number) as soon as one value is not a number,
   * which then stays not-a-number to the end.
   */
  function Total(vs: seq<Option<real>>): (r: Option<real>)
    ensures r.Some? <==> AllNumbers(vs)
  {
    if vs == [] then
      Some(0.0)
    else
      var sum := Total(vs[..|vs| - 1]);
      var v := vs[|vs| - 1];
      if sum.Some? && v.Some? then Some(sum.value + v.value) else None
  }

  /** The total of a file made of two parts is the total of each part added up. */
  lemma {:induction false} TotalAppend(a: seq<Option<real>>, b: seq<Option<real>>)
    requires Total(a).Some? && Total(b).Some?
    ensures Total(a + b) == Some(Total(a).value + Total(b).value)
  {
    if b != [] {
      assert (a + b)[..|a + b| - 1] == a + b[..|b| - 1];
      TotalAppend(a, b[..|b| - 1]);
    } else {
      assert a + b == a;
    }
  }

  /** The report `readEnergyData` computes from the text of the sample file. */
  function Aggregate(text: string): (r: Option<EnergyReport>)
    ensures r.Some? <==> AllNumbers(Samples(Split(text)))
    ensures r.Some? ==> r.value.duration == Count(text, '\n') + 1
    ensures r.Some? ==> Total(Samples(Split(text))) == Some(r.value.totalEnergy)
    ensures r.Some? ==> r.value.duration > 0 && r.value == Report(r.value.totalEnergy, r.value.duration)
  {
    var pieces := Split(text);
    var total := Total(Samples(pieces));
    if total.None? then None else Some(Report(total.value, |pieces|))
  }

  /** The report for a total over `count` samples: the average times the count is the total. */
  function Report(total: real, count: nat): (rep: EnergyReport)
    requires count > 0
    ensures rep.totalEnergy == total && rep.duration == count
    ensures rep.powerAvg * count as real == total
  {
    EnergyReport(total, total / count as real, count)
  }

  /** One piece that is not a number makes the whole report not-a-number. */
  lemma NotANumber(text: string, i: nat)
    requires i < |Split(text)| && ParseNumber(Split(text)[i]).None?
    ensures Aggregate(text).None?
  {
    SampleAt(Split(text), i);
  }

  /** The loop of index.js:63-75 over the sample text. */
  method ReadEnergyData(text: string) returns (r: Option<EnergyReport>)
    ensures r == Aggregate(text)
  {
    var energyNumbers := Split(text);
    var energySum: Option<real> := Some(0.0);
    for i := 0 to |energyNumbers|
      invariant energySum == Total(Samples(energyNumbers[..i]))
    {
      TotalStep(energyNumbers, i);
      assert Samples(energyNumbers[..i + 1]) == Samples(energyNumbers[..i]) + [ParseNumber(energyNumbers[i])] by {
        assert energyNumbers[..i + 1][..i] == energyNumbers[..i];
      }
      var v := ParseNumber(energyNumbers[i]);
      energySum := if energySum.Some? && v.Some? then Some(energySum.value + v.value) else None;
    }
    assert energyNumbers[..|energyNumbers|] == energyNumbers;
    if energySum.None? {
      r := None;
    } else {
      var powerAvg := energySum.value / |energyNumbers| as real;
      r := Some(EnergyReport(energySum.value, powerAvg, |energyNumbers|));
    }
  }

  /** One turn of the loop: the running sum over one more piece adds that
      piece's value, or becomes not-a-number. */
  lemma TotalStep(pieces: seq<string>, i: nat)
    requires i < |pieces|
    ensures var sum := Total(Samples(pieces[..i]));
            var v := ParseNumber(pieces[i]);
            Total(Samples(pieces[..i + 1])) == if sum.Some? && v.Some? then Some(sum.value + v.value) else None
  {
    var vs := Samples(pieces[..i + 1]);
    assert pieces[..i + 1][..i] == pieces[..i];
    assert vs == Samples(pieces[..i]) + [ParseNumber(pieces[i])];
    assert vs[..|vs| - 1] == Samples(pieces[..i]);
  }

  /** A trailing newline leaves the total alone but counts one more sample,
      pulling the average down. */
  lemma TrailingNewline(text: string)
    ensures Aggregate(text + "\n") ==
      match Aggregate(text)
      case None => None
      case Some(rep) =>
        Some(EnergyReport(rep.totalEnergy, rep.totalEnergy / (rep.duration + 1) as real, rep.duration + 1))
  {
    SplitTrailingNewline(text);
    var pieces := Split(text);
    var vs := Samples(pieces);
    ParseBlank([]);
    assert Samples(pieces + [[]]) == vs + [Some(0.0)];
    var zero: seq<Option<real>> := [Some(0.0)];
    assert Total(zero) == Some(0.0) by {
      assert zero[..0] == [];
    }
    if Total(vs).Some? {
      TotalAppend(vs, zero);
    } else {
      var i :| 0 <= i < |vs| && vs[i].None?;
      assert (vs + zero)[i] == vs[i];
    }
  }

  /** A file of three numeric samples without a trailing newline gives their sum
      over three samples (10, 20 and 30 give a total of 60 and an average of 20). */
  lemma ThreeSamples(x: string, y: string, z: string, u: real, v: real, w: real)
    requires '\n' !in x && '\n' !in y && '\n' !in z
    requires ParseNumber(x) == Some(u) && ParseNumber(y) == Some(v) && ParseNumber(z) == Some(w)
    ensures Aggregate(x + "\n" + y + "\n" + z) == Some(Report(u + v + w, 3))
  {
    SplitThree(x, y, z);
    SamplesThree(x, y, z);
    TotalThree(u, v, w);
    AggregateOfTotal(x + "\n" + y + "\n" + z, u + v + w);
  }

  /** The file "10\n20\n30" gives a total of 60, an average of 20 and a duration of 3. */
  lemma TenTwentyThirty(text: string)
    requires text == "10\n20\n30"
    ensures Aggregate(text) == Some(EnergyReport(60.0, 20.0, 3))
  {
    var x, y, z := IntToString(10), IntToString(20), IntToString(30);
    TensText();
    ParseIntToString(10);
    ParseIntToString(20);
    ParseIntToString(30);
    ThreeSamples(x, y, z, 10.0, 20.0, 30.0);
    assert x + "\n" + y + "\n" + z == text;
  }

  lemma TensText()
    ensures IntToString(10) == "10" && IntToString(20) == "20" && IntToString(30) == "30"
  {
  }

  lemma AggregateOfTotal(text: string, total: real)
    requires Total(Samples(Split(text))) == Some(total)
    ensures Aggregate(text) == Some(Report(total, |Split(text)|))
  {
  }

  lemma SplitThree(x: string, y: string, z: string)
    requires '\n' !in x && '\n' !in y && '\n' !in z
    ensures Split(x + "\n" + y + "\n" + z) == [x, y, z]
  {
    SplitPiece(x, y + "\n" + z);
    SplitPiece(y, z);
    SplitPieceAlone(z);
    assert x + "\n" + y + "\n" + z == x + "\n" + (y + "\n" + z);
  }

  lemma SamplesThree(x: string, y: string, z: string)
    ensures Samples([x, y, z]) == [ParseNumber(x), ParseNumber(y), ParseNumber(z)]
  {
    assert [x, y, z][..2] == [x, y] && [x, y][..1] == [x];
    var none: seq<string> := [];
    assert [x][..0] == none;
    assert Samples([x]) == [ParseNumber(x)];
    assert Samples([x, y]) == [ParseNumber(x), ParseNumber(y)];
  }

  lemma TotalThree(u: real, v: real, w: real)
    ensures Total([Some(u), Some(v), Some(w)]) == Some(u + v + w)
  {
    var vs := [Some(u), Some(v), Some(w)];
    assert vs[..2] == [Some(u), Some(v)];
    assert vs[..2][..1] == [Some(u)];
    assert vs[..2][..1][..0] == [];
    assert Total([Some(u)]) == Some(u);
    assert Total([Some(u), Some(v)]) == Some(u + v);
  }
}
