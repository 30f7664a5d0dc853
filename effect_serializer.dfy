/**
 * `effects/effect_serializer.py`: a frame-by-light matrix of packed colours is
 * turned into a colour table (the sorted distinct values, the `np.unique` step),
 * a matrix of table indices, and a text file whose first line is the metadata
 * JSON and whose other lines hold one group of identical consecutive frames
 * each, every frame written as runs of identical consecutive indices.
 */
module EffectSerializer {
  import opened Base
  import opened Text
  import opened Runs
  import opened Storage

  /** A two-dimensional array: every frame has the same number of lights. */
  predicate Rectangular(m: seq<seq<int>>)
  {
    forall i, j :: 0 <= i < |m| && 0 <= j < |m| ==> |m[i]| == |m[j]|
  }

  predicate StrictlyAscending(t: seq<int>)
  {
    forall i, j :: 0 <= i < j < |t| ==> t[i] < t[j]
  }

  /** `x` placed into an ascending table, unless it is there already. */
  function Insert(t: seq<int>, x: int): (r: seq<int>)
    requires StrictlyAscending(t)
    ensures StrictlyAscending(r)
    ensures forall y :: y in r <==> y in t || y == x
  {
    if |t| == 0 then [x]
    else if x < t[0] then [x] + t
    else if x == t[0] then t
    else
      var rest := Insert(t[1..], x);
      HeadBelowTail(t);
      AscendingCons(t[0], rest);
      assert t == [t[0]] + t[1..];
      [t[0]] + rest
  }

  lemma HeadBelowTail(t: seq<int>)
    requires StrictlyAscending(t) && |t| > 0
    ensures forall y :: y in t[1..] ==> t[0] < y
  {
    forall y | y in t[1..]
      ensures t[0] < y
    {
      var i :| 0 <= i < |t[1..]| && t[1..][i] == y;
      assert t[i + 1] == y;
    }
  }

  lemma AscendingCons(h: int, rest: seq<int>)
    requires StrictlyAscending(rest) && forall y :: y in rest ==> h < y
    ensures StrictlyAscending([h] + rest)
  {
    var r := [h] + rest;
    forall i, j | 0 <= i < j < |r|
      ensures r[i] < r[j]
    {
      assert r[j] == rest[j - 1] && rest[j - 1] in rest;
      if i > 0 {
        assert r[i] == rest[i - 1];
      }
    }
  }

  /** `np.unique(xs)`: the distinct values of `xs`, ascending. */
  function Unique(xs: seq<int>): (t: seq<int>)
    ensures StrictlyAscending(t)
    ensures forall y :: y in t <==> y in xs
  {
    if |xs| == 0 then []
    else
      assert xs == xs[..|xs| - 1] + [xs[|xs| - 1]];
      Insert(Unique(xs[..|xs| - 1]), xs[|xs| - 1])
  }

  /** Only one ascending sequence holds a given set of values: `Unique` is determined by its two properties. */
  lemma {:induction false} AscendingUnique(a: seq<int>, b: seq<int>)
    requires StrictlyAscending(a) && StrictlyAscending(b)
    requires forall y :: y in a <==> y in b
    ensures a == b
  {
    if |a| > 0 {
      assert a[0] in a && a[0] in b;
    }
    if |b| > 0 {
      assert b[0] in b && b[0] in a;
    }
    if |a| > 0 && |b| > 0 {
      HeadAtMost(a, b);
      HeadAtMost(b, a);
      assert a == [a[0]] + a[1..] && b == [b[0]] + b[1..];
      forall y
        ensures y in a[1..] <==> y in b[1..]
      {
        if y in a[1..] {
          var k :| 0 <= k < |a[1..]| && a[1..][k] == y;
          assert a[k + 1] == y && a[0] < a[k + 1];
          assert y in b && y != b[0];
        }
        if y in b[1..] {
          var k :| 0 <= k < |b[1..]| && b[1..][k] == y;
          assert b[k + 1] == y && b[0] < b[k + 1];
          assert y in a && y != a[0];
        }
      }
      AscendingUnique(a[1..], b[1..]);
    }
  }

  lemma HeadAtMost(a: seq<int>, b: seq<int>)
    requires StrictlyAscending(a) && |a| > 0 && |b| > 0
    requires forall y :: y in b ==> y in a
    ensures a[0] <= b[0]
  {
    assert b[0] in b;
    var k :| 0 <= k < |a| && a[k] == b[0];
    assert k == 0 || a[0] < a[k];
  }

  /** The position of `x` in the table. */
  function IndexOf(t: seq<int>, x: int): (i: nat)
    requires x in t
    ensures i < |t| && t[i] == x
  {
    if t[0] == x then 0 else 1 + IndexOf(t[1..], x)
  }

  /** In an ascending table the position of a value is the only one holding it. */
  lemma IndexOfUnique(t: seq<int>, i: nat)
    requires StrictlyAscending(t) && i < |t|
    ensures IndexOf(t, t[i]) == i
  {
  }

  /** Every cell of the matrix, frame after frame. */
  function Cells(m: seq<seq<int>>): seq<int>
  {
    Concat(m)
  }

  lemma {:induction false} CellsHold(m: seq<seq<int>>, i: nat, j: nat)
    requires i < |m| && j < |m[i]|
    ensures m[i][j] in Cells(m)
  {
    if i > 0 {
      CellsHold(m[1..], i - 1, j);
    }
  }

  /** The colour table `np.unique(lights)` as the list stored under `metadata['colors']`. */
  function Table(lights: seq<seq<int>>): (t: seq<int>)
    ensures StrictlyAscending(t)
    ensures forall i, j :: 0 <= i < |lights| && 0 <= j < |lights[i]| ==> lights[i][j] in t
    ensures forall y :: y in t ==> y in Cells(lights)
  {
    var t := Unique(Cells(lights));
    forall i, j | 0 <= i < |lights| && 0 <= j < |lights[i]|
      ensures lights[i][j] in t
    {
      CellsHold(lights, i, j);
    }
    t
  }

  function IndexRow(t: seq<int>, row: seq<int>): (r: seq<nat>)
    requires forall j :: 0 <= j < |row| ==> row[j] in t
    ensures |r| == |row|
    ensures forall j :: 0 <= j < |r| ==> r[j] < |t| && t[r[j]] == row[j]
  {
    if |row| == 0 then [] else [IndexOf(t, row[0])] + IndexRow(t, row[1..])
  }

  /** `color_indices`: the table position of every cell, in the matrix's own shape. */
  function Indices(lights: seq<seq<int>>): (m: seq<seq<nat>>)
    ensures |m| == |lights|
    ensures forall i :: 0 <= i < |m| ==> |m[i]| == |lights[i]|
    ensures forall i, j :: 0 <= i < |m| && 0 <= j < |m[i]| ==>
      m[i][j] < |Table(lights)| && Table(lights)[m[i][j]] == lights[i][j]
  {
    var t := Table(lights);
    seq(|lights|, i requires 0 <= i < |lights| => IndexRow(t, lights[i]))
  }

  /** `_serialize_value`: a lone index is written bare, a longer run as `<count>x<index>`. */
  function SerializeValue(run: Run<nat>): string
  {
    if run.count == 1 then Decimal(run.value) else Decimal(run.count) + "x" + Decimal(run.value)
  }

  /** A token holds digits and at most one `x`: no comma, `r` or bracket. */
  lemma TokenFree(run: Run<nat>, c: char)
    requires !IsDigit(c, 10) && c != 'x'
    ensures Free(SerializeValue(run), c)
  {
    DecimalDigits(run.count);
    DecimalDigits(run.value);
    DigitsFree(Decimal(run.count), c);
    DigitsFree(Decimal(run.value), c);
    FreeAppend(Decimal(run.count), "x", c);
    FreeAppend(Decimal(run.count) + "x", Decimal(run.value), c);
  }

  function Tokens(runs: seq<Run<nat>>): (ts: seq<string>)
    ensures |ts| == |runs|
    ensures forall k :: 0 <= k < |ts| ==> ts[k] == SerializeValue(runs[k])
  {
    if |runs| == 0 then [] else [SerializeValue(runs[0])] + Tokens(runs[1..])
  }

  /** `_serialize_row`: the tokens of the runs joined by commas. */
  function SerializeRow(runs: seq<Run<nat>>): string
  {
    Join(Tokens(runs), ',')
  }

  /** One body line: a single frame bare, a group of `count` identical frames as `<count>r[<row>]`. */
  function GroupLine(count: nat, runs: seq<Run<nat>>): string
  {
    if count == 1 then SerializeRow(runs) else Decimal(count) + "r[" + SerializeRow(runs) + "]"
  }

  /** The runs of every representative frame; `None` when one of them is empty. */
  function RowRuns(groups: seq<Run<seq<nat>>>): (r: Option<seq<Run<seq<Run<nat>>>>>)
    ensures r.Some? <==> forall g :: 0 <= g < |groups| ==> |groups[g].value| > 0
    ensures r.Some? ==> |r.value| == |groups|
    ensures r.Some? ==> forall g :: 0 <= g < |groups| ==>
      r.value[g].count == groups[g].count && Collapse(groups[g].value) == Some(r.value[g].value)
  {
    if |groups| == 0 then Some([])
    else match (Collapse(groups[0].value), RowRuns(groups[1..]))
      case (Some(first), Some(rest)) => Some([Run(groups[0].count, first)] + rest)
      case _ => None
  }

  /** The zip of row-group counts and row runs that the writing loop walks. */
  function Encoding(indices: seq<seq<nat>>): (r: Option<seq<Run<seq<Run<nat>>>>>)
    ensures |indices| == 0 ==> r.None?
    ensures r.Some? ==> forall g :: 0 <= g < |r.value| ==> r.value[g].count >= 1 && Expand(r.value[g].value) in indices
  {
    CollapseIsRunEncoding(indices);
    match Collapse(indices)
    case None => None
    case Some(groups) =>
      var r := RowRuns(groups);
      assert r.Some? ==> forall g :: 0 <= g < |r.value| ==> r.value[g].count >= 1 && Expand(r.value[g].value) in indices by {
        if r.Some? {
          forall g | 0 <= g < |r.value|
            ensures r.value[g].count >= 1 && Expand(r.value[g].value) in indices
          {
            GroupInMatrix(groups, g);
            CollapseIsRunEncoding(groups[g].value);
          }
        }
      }
      r
  }

  function Lines(data: seq<Run<seq<Run<nat>>>>): (ls: seq<string>)
    ensures |ls| == |data|
  {
    if |data| == 0 then [] else [GroupLine(data[0].count, data[0].value)] + Lines(data[1..])
  }

  /** The table as the JSON list written under `colors`. */
  function ColorsJson(t: seq<int>): Json
  {
    JArr(seq(|t|, i requires 0 <= i < |t| => JNum(t[i])))
  }

  /** `IndexError` out of the numpy indexing of an empty matrix or an empty frame. */
  datatype Failure = IndexError

  /**
   * Every step of `serialize` one at a time is possible exactly when the matrix
   * has a frame and the frames have a light.
   */
  lemma GroupsDefined(lights: seq<seq<int>>)
    requires Rectangular(lights)
    ensures Encoding(Indices(lights)).Some? <==> |lights| > 0 && |lights[0]| > 0
  {
    var m := Indices(lights);
    match Collapse(m)
    case None =>
    case Some(groups) =>
      CollapseIsRunEncoding(m);
      forall g | 0 <= g < |groups|
        ensures |groups[g].value| == |lights[0]|
      {
        GroupInMatrix(groups, g);
        var k :| 0 <= k < |m| && m[k] == groups[g].value;
      }
  }

  /** The value of every group is one of the collapsed rows. */
  lemma GroupInMatrix<T>(groups: seq<Run<T>>, g: nat)
    requires Canonical(groups) && g < |groups|
    ensures groups[g].value in Expand(groups)
  {
    if g == 0 {
      assert Expand(groups) == Repeat(groups[0].value, groups[0].count) + Expand(groups[1..]);
      assert Expand(groups)[0] == groups[0].value;
    } else {
      var tail := groups[1..];
      assert Canonical(tail);
      GroupInMatrix(tail, g - 1);
      assert Expand(groups) == Repeat(groups[0].value, groups[0].count) + Expand(tail);
    }
  }

  /** What `serialize` writes after the metadata line: one line per group of identical frames. */
  lemma LineCount(lights: seq<seq<int>>)
    requires Encoding(Indices(lights)).Some?
    ensures |Lines(Encoding(Indices(lights)).value)| == |Collapse(Indices(lights)).value|
  {
  }

  /**
   * `serialize(file, lights, metadata)`: stores the colour table under `colors` in
   * the caller's dictionary (before anything can fail), then, when the matrix has
   * a frame and a light, writes the metadata JSON line and one line per frame group.
   * `json.dumps` is the `dumps` parameter.
   */
  method Serialize(file: TextFile, lights: seq<seq<int>>, metadata: JsonDict, dumps: Json -> string)
    returns (r: Result<(), Failure>)
    requires Rectangular(lights)
    modifies file, metadata
    ensures metadata.fields == old(metadata.fields)["colors" := ColorsJson(Table(lights))]
    ensures r.Ok? <==> Encoding(Indices(lights)).Some?
    ensures r.Ok? ==> file.lines == old(file.lines) + [dumps(JObj(metadata.fields))] + Lines(Encoding(Indices(lights)).value)
    ensures r.Err? ==> file.lines == old(file.lines)
  {
    var table := Table(lights);
    metadata.Set("colors", ColorsJson(table));
    var data := Encoding(Indices(lights));
    if data.None? {
      return Err(IndexError);
    }
    file.WriteLine(dumps(JObj(metadata.fields)));
    WriteGroups(file, data.value);
    return Ok(());
  }

  /** The loop of `serialize` over `zip(counts, rows)`: one line per group, in order. */
  method WriteGroups(file: TextFile, groups: seq<Run<seq<Run<nat>>>>)
    modifies file
    ensures file.lines == old(file.lines) + Lines(groups)
  {
    ghost var start, ls := file.lines, Lines(groups);
    for k := 0 to |groups|
      invariant file.lines == start + ls[..k]
    {
      var line := FormatGroup(groups, k);
      file.WriteLine(line);
      assert ls[..k + 1] == ls[..k] + [ls[k]];
    }
    assert ls[..|groups|] == ls;
  }

  /** The text of group `k`, as the loop body of `serialize` formats it. */
  method FormatGroup(groups: seq<Run<seq<Run<nat>>>>, k: nat) returns (line: string)
    requires k < |groups|
    ensures line == Lines(groups)[k]
  {
    LinesAt(groups, k);
    line := GroupLine(groups[k].count, groups[k].value);
  }

  /** Line `k` is the line of group `k`. */
  lemma {:induction false} LinesAt(data: seq<Run<seq<Run<nat>>>>, k: nat)
    requires k < |data|
    ensures Lines(data)[k] == GroupLine(data[k].count, data[k].value)
  {
    if k > 0 {
      LinesAt(data[1..], k - 1);
    }
  }
}
