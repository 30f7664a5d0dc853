/**
 * A decoder for the body lines `serialize` writes: a line `<count>r[<row>]` is
 * `count` copies of its row, any other line is one row; a row is comma-separated
 * tokens, `<count>x<index>` standing for `count` copies of the index and a bare
 * `<index>` for one. Indices are resolved against the colour table. This is the
 * decoder the device's reader lacks (see `EffectReader.ParseFrame`); the round
 * trip below shows the serializer loses nothing.
 */
module EffectFormat {
  import opened Base
  import opened Text
  import opened Runs
  import opened EffectSerializer

  /** `<digits>`: a non-empty string of decimal digits and its value. */
  function ParseNat(s: string): (r: Option<nat>)
    ensures r.Some? <==> |s| > 0 && AllDigits(s, 10)
  {
    if |s| > 0 && AllDigits(s, 10) then Some(ParseNumeral(s, 10)) else None
  }

  lemma ParseNatOfDecimal(n: nat)
    ensures ParseNat(Decimal(n)) == Some(n)
  {
    ParseNumeralOfNumeral(n, 10);
  }

  /** A token: `<count>x<index>` or a bare `<index>` (a run of one). */
  function ParseToken(tok: string): Option<Run<nat>>
  {
    var parts := Split(tok, 'x');
    if |parts| == 1 then
      match ParseNat(parts[0])
      case Some(v) => Some(Run(1, v))
      case None => None
    else if |parts| == 2 then
      match (ParseNat(parts[0]), ParseNat(parts[1]))
      case (Some(c), Some(v)) => Some(Run(c, v))
      case _ => None
    else None
  }

  function ParseTokens(ts: seq<string>): (r: Option<seq<Run<nat>>>)
    ensures r.Some? ==> |r.value| == |ts|
  {
    if |ts| == 0 then Some([])
    else match (ParseToken(ts[0]), ParseTokens(ts[1..]))
      case (Some(run), Some(rest)) => Some([run] + rest)
      case _ => None
  }

  /** A row: its comma-separated tokens. */
  function ParseRow(s: string): Option<seq<Run<nat>>>
  {
    ParseTokens(Split(s, ','))
  }

  /** A body line as a group: `<count>r[<row>]`, or a bare row counted once. */
  function ParseLine(line: string): Option<Run<seq<Run<nat>>>>
  {
    var parts := Split(line, 'r');
    if |parts| == 1 then
      match ParseRow(parts[0])
      case Some(row) => Some(Run(1, row))
      case None => None
    else if |parts| == 2 && |parts[1]| >= 2 && parts[1][0] == '[' && parts[1][|parts[1]| - 1] == ']' then
      match (ParseNat(parts[0]), ParseRow(parts[1][1..|parts[1]| - 1]))
      case (Some(c), Some(row)) => Some(Run(c, row))
      case _ => None
    else None
  }

  /** The index frames one body line stands for. */
  function DecodeLine(line: string): Option<seq<seq<nat>>>
  {
    match ParseLine(line)
    case Some(g) => Some(Repeat(Expand(g.value), g.count))
    case None => None
  }

  /** The index frames of all body lines, in order; `None` if a line is malformed. */
  function DecodeBody(lines: seq<string>): Option<seq<seq<nat>>>
  {
    if |lines| == 0 then Some([])
    else match (DecodeLine(lines[0]), DecodeBody(lines[1..]))
      case (Some(first), Some(rest)) => Some(first + rest)
      case _ => None
  }

  function ResolveRow(table: seq<int>, row: seq<nat>): (r: Option<seq<int>>)
    ensures r.Some? <==> forall j :: 0 <= j < |row| ==> row[j] < |table|
    ensures r.Some? ==> |r.value| == |row| && forall j :: 0 <= j < |row| ==> r.value[j] == table[row[j]]
  {
    if |row| == 0 then Some([])
    else if row[0] >= |table| then None
    else match ResolveRow(table, row[1..])
      case Some(rest) => Some([table[row[0]]] + rest)
      case None => None
  }

  /** Index frames turned into colour frames; an index outside the table is an error. */
  function Resolve(table: seq<int>, rows: seq<seq<nat>>): (r: Option<seq<seq<int>>>)
    ensures r.Some? ==> |r.value| == |rows|
  {
    if |rows| == 0 then Some([])
    else match (ResolveRow(table, rows[0]), Resolve(table, rows[1..]))
      case (Some(first), Some(rest)) => Some([first] + rest)
      case _ => None
  }

  lemma TokenRoundTrip(run: Run<nat>)
    requires run.count >= 1
    ensures ParseToken(SerializeValue(run)) == Some(run)
  {
    DecimalDigits(run.count);
    DecimalDigits(run.value);
    DigitsFree(Decimal(run.value), 'x');
    ParseNatOfDecimal(run.value);
    if run.count == 1 {
      SplitFree(Decimal(run.value), 'x');
    } else {
      DigitsFree(Decimal(run.count), 'x');
      ParseNatOfDecimal(run.count);
      var parts := [Decimal(run.count), Decimal(run.value)];
      assert Join(parts, 'x') == SerializeValue(run);
      SplitJoin(parts, 'x');
    }
  }

  lemma {:induction false} TokensRoundTrip(runs: seq<Run<nat>>)
    requires forall k :: 0 <= k < |runs| ==> runs[k].count >= 1
    ensures ParseTokens(Tokens(runs)) == Some(runs)
  {
    if |runs| > 0 {
      TokenRoundTrip(runs[0]);
      TokensRoundTrip(runs[1..]);
      assert Tokens(runs)[1..] == Tokens(runs[1..]);
      assert [runs[0]] + runs[1..] == runs;
    }
  }

  /**
   * `_serialize_row` writes one token per run, in order, separated by single
   * commas: splitting at the commas gives the tokens back, and there are one
   * fewer commas than runs.
   */
  lemma RowShape(runs: seq<Run<nat>>)
    requires |runs| >= 1
    ensures Split(SerializeRow(runs), ',') == Tokens(runs)
    ensures |Split(SerializeRow(runs), ',')| == |runs|
    ensures Count(SerializeRow(runs), ',') == |runs| - 1
  {
    var ts := Tokens(runs);
    forall i | 0 <= i < |ts|
      ensures Free(ts[i], ',')
    {
      TokenFree(runs[i], ',');
    }
    SplitJoin(ts, ',');
    JoinCount(ts, ',');
  }

  /** A serialized row holds no `r` and no bracket, and parses back to its runs. */
  lemma RowRoundTrip(runs: seq<Run<nat>>)
    requires |runs| >= 1 && forall k :: 0 <= k < |runs| ==> runs[k].count >= 1
    ensures ParseRow(SerializeRow(runs)) == Some(runs)
    ensures Free(SerializeRow(runs), 'r') && Free(SerializeRow(runs), '[') && Free(SerializeRow(runs), ']')
  {
    var ts := Tokens(runs);
    forall i | 0 <= i < |ts|
      ensures Free(ts[i], ',') && Free(ts[i], 'r') && Free(ts[i], '[') && Free(ts[i], ']')
    {
      TokenFree(runs[i], ',');
      TokenFree(runs[i], 'r');
      TokenFree(runs[i], '[');
      TokenFree(runs[i], ']');
    }
    SplitJoin(ts, ',');
    TokensRoundTrip(runs);
    assert Free(Join(ts, ','), 'r') && Free(Join(ts, ','), '[') && Free(Join(ts, ','), ']');
  }

  /** Every line `serialize` writes parses back to the group it was written from. */
  lemma LineRoundTrip(count: nat, runs: seq<Run<nat>>)
    requires count >= 1
    requires |runs| >= 1 && forall k :: 0 <= k < |runs| ==> runs[k].count >= 1
    ensures ParseLine(GroupLine(count, runs)) == Some(Run(count, runs))
  {
    var row := SerializeRow(runs);
    RowRoundTrip(runs);
    if count == 1 {
      SplitFree(row, 'r');
    } else {
      DecimalDigits(count);
      DigitsFree(Decimal(count), 'r');
      ParseNatOfDecimal(count);
      var wrapped := "[" + row + "]";
      FreeAppend("[", row, 'r');
      FreeAppend("[" + row, "]", 'r');
      var parts := [Decimal(count), wrapped];
      assert Join(parts, 'r') == GroupLine(count, runs);
      SplitJoin(parts, 'r');
      assert wrapped[1..|wrapped| - 1] == row;
    }
  }

  /** Decoding the lines written for a sequence of row groups gives back every frame of every group. */
  lemma {:induction false} DecodeGroups(groups: seq<Run<seq<nat>>>)
    requires Canonical(groups)
    requires RowRuns(groups).Some?
    ensures DecodeBody(Lines(RowRuns(groups).value)) == Some(Expand(groups))
  {
    if |groups| > 0 {
      var tail := groups[1..];
      assert Canonical(tail);
      DecodeGroups(tail);
      FirstLineDecodes(groups);
      DecodeBodyCons(Lines(RowRuns(groups).value), Repeat(groups[0].value, groups[0].count), Expand(tail));
    }
  }

  /** The first line decodes to the first group's frames, and the other lines are the other groups' lines. */
  lemma FirstLineDecodes(groups: seq<Run<seq<nat>>>)
    requires Canonical(groups) && |groups| > 0 && RowRuns(groups).Some?
    ensures var ls := Lines(RowRuns(groups).value);
      && RowRuns(groups[1..]).Some?
      && ls[1..] == Lines(RowRuns(groups[1..]).value)
      && DecodeLine(ls[0]) == Some(Repeat(groups[0].value, groups[0].count))
  {
    var c := groups[0].count;
    var rr := RowRuns(groups).value[0].value;
    GroupsCons(groups);
    CollapseIsRunEncoding(groups[0].value);
    LineRoundTrip(c, rr);
  }

  /** The first group's line, then the lines of the other groups. */
  lemma GroupsCons(groups: seq<Run<seq<nat>>>)
    requires |groups| > 0 && RowRuns(groups).Some?
    ensures var data := RowRuns(groups).value;
      && RowRuns(groups[1..]).Some?
      && Collapse(groups[0].value) == Some(data[0].value)
      && Lines(data)[0] == GroupLine(groups[0].count, data[0].value)
      && Lines(data)[1..] == Lines(RowRuns(groups[1..]).value)
  {
    var data := RowRuns(groups).value;
    assert data[1..] == RowRuns(groups[1..]).value;
  }

  lemma DecodeBodyCons(lines: seq<string>, first: seq<seq<nat>>, rest: seq<seq<nat>>)
    requires |lines| > 0 && DecodeLine(lines[0]) == Some(first) && DecodeBody(lines[1..]) == Some(rest)
    ensures DecodeBody(lines) == Some(first + rest)
  {
  }

  /** Indices resolve back to the colours they were taken from. */
  lemma {:induction false} ResolveIndices(t: seq<int>, lights: seq<seq<int>>, m: seq<seq<nat>>)
    requires |m| == |lights|
    requires forall i :: 0 <= i < |m| ==> |m[i]| == |lights[i]|
    requires forall i, j :: 0 <= i < |m| && 0 <= j < |m[i]| ==> m[i][j] < |t| && t[m[i][j]] == lights[i][j]
    ensures Resolve(t, m) == Some(lights)
  {
    if |m| > 0 {
      ResolveIndices(t, lights[1..], m[1..]);
      var first := ResolveRow(t, m[0]);
      assert first.Some? && first.value == lights[0];
      assert [lights[0]] + lights[1..] == lights;
    }
  }

  /**
   * The codec is lossless: decoding every line `serialize` writes after the
   * metadata line gives back `color_indices`, and resolving those against the
   * colour table gives back the matrix.
   */
  lemma RoundTrip(lights: seq<seq<int>>)
    requires Rectangular(lights) && |lights| > 0 && |lights[0]| > 0
    ensures Encoding(Indices(lights)).Some?
    ensures DecodeBody(Lines(Encoding(Indices(lights)).value)) == Some(Indices(lights))
    ensures Resolve(Table(lights), Indices(lights)) == Some(lights)
  {
    GroupsDefined(lights);
    var m := Indices(lights);
    CollapseIsRunEncoding(m);
    DecodeGroups(Collapse(m).value);
    ResolveIndices(Table(lights), lights, m);
  }

  /** A line with a repeated frame and a repeated index: two frames of three times index 0. */
  lemma TwoRepeatedFrames()
    ensures DecodeLine("2r[3x0]") == Some([[0, 0, 0], [0, 0, 0]])
  {
    var runs := [Run(3, 0)];
    assert DigitChar(0) == '0' && DigitChar(2) == '2' && DigitChar(3) == '3';
    assert Decimal(0) == "0" && Decimal(2) == "2" && Decimal(3) == "3";
    assert SerializeValue(Run(3, 0)) == "3x0";
    assert Tokens(runs) == ["3x0"];
    assert SerializeRow(runs) == "3x0";
    assert GroupLine(2, runs) == "2r[3x0]";
    LineRoundTrip(2, runs);
    assert Expand(runs) == [0, 0, 0] by {
      assert Expand(runs[1..]) == [];
      assert Repeat(0, 3) == [0, 0, 0];
    }
    assert Repeat([0, 0, 0], 2) == [[0, 0, 0], [0, 0, 0]];
  }

  /** Index 0 of the table `[red, green]` resolves to red in every light of both frames. */
  lemma TwoRedFrames()
    ensures Resolve([0xff0000, 0x00ff00], [[0, 0, 0], [0, 0, 0]])
      == Some([[0xff0000, 0xff0000, 0xff0000], [0xff0000, 0xff0000, 0xff0000]])
  {
    var t := [0xff0000, 0x00ff00];
    var red := [0xff0000, 0xff0000, 0xff0000];
    var z: seq<nat> := [0, 0, 0];
    var row := ResolveRow(t, z);
    assert row.Some? && |row.value| == 3;
    assert row.value[0] == red[0] && row.value[1] == red[1] && row.value[2] == red[2];
    assert row.value == red;
    var zz: seq<seq<nat>> := [z, z];
    var one: seq<seq<nat>> := [z];
    assert one[0] == z && one[1..] == [];
    assert Resolve(t, one[1..]) == Some([]);
    assert ResolveRow(t, one[0]) == Some(red);
    assert [red] + [] == [red];
    assert Resolve(t, one) == Some([red]);
    assert zz[0] == z && zz[1..] == one;
    assert ResolveRow(t, zz[0]) == Some(red);
    assert Resolve(t, zz[1..]) == Some([red]);
    assert [red] + [red] == [red, red];
    assert Resolve(t, zz) == Some([red, red]);
  }
}
