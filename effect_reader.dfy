/**
 * `pico/effect_reader.py`: the constructor reads the metadata line of an effect
 * file; `read_frames` is a generator that skips that line, turns every further
 * line into the integers of its first `light_count` comma-separated tokens,
 * collects them in batches of `batch_size` frames, yields each full batch frame
 * by frame, yields the partial batch at end of file, rewinds and starts again.
 *
 * The generator is a state machine. One `Transition` is one step of the
 * generator's body: skipping the metadata line, reading one data line, handing
 * out one frame, reaching end of file, or rewinding. Python's `next()` runs
 * steps until one of them yields or raises.
 */
module EffectReader {
  import opened Base
  import opened Text
  import opened Runs
  import opened Storage
  import opened EffectSerializer
  import opened EffectFormat

  type Frame = seq<int>

  /** How many tokens survive `if i < light_count`. */
  function Kept(n: nat, lightCount: int): (k: nat)
    ensures k <= n && (lightCount >= 0 ==> k == if lightCount < n then lightCount else n)
  {
    if lightCount <= 0 then 0 else if lightCount < n then lightCount else n
  }

  /** `int()` accepts each of the first `k` tokens. */
  predicate AllInts(ts: seq<string>, k: nat)
    requires k <= |ts|
  {
    forall i :: 0 <= i < k ==> PyInt(ts[i]).Some?
  }

  /** `int()` of the first `k` tokens, or `None` when `int()` rejects one of them. */
  function ParsePrefix(ts: seq<string>, k: nat): (r: Option<seq<int>>)
    requires k <= |ts|
    ensures r.Some? <==> AllInts(ts, k)
    ensures r.Some? ==> |r.value| == k && forall i :: 0 <= i < k ==> PyInt(ts[i]) == Some(r.value[i])
  {
    if k == 0 then Some([])
    else
      var prev := ParsePrefix(ts, k - 1);
      var v := PyInt(ts[k - 1]);
      if prev.None? then
        assert !AllInts(ts, k) by {
          var i :| 0 <= i < k - 1 && PyInt(ts[i]).None?;
        }
        None
      else if v.None? then
        None
      else
        var r := prev.value + [v.value];
        assert forall i :: 0 <= i < k ==> PyInt(ts[i]) == Some(r[i]) by {
          forall i | 0 <= i < k
            ensures PyInt(ts[i]) == Some(r[i])
          {
            if i < k - 1 {
              assert r[i] == prev.value[i];
            }
          }
        }
        Some(r)
  }

  /**
   * The frame of one line `row` (as the file iterator returns it, terminator
   * included): the integers of its first `lightCount` comma-separated tokens;
   * `None` when `int()` raises `ValueError` on one of them.
   */
  function ParseFrame(row: string, lightCount: int): (r: Option<Frame>)
    ensures r.Some? <==> AllInts(Split(row, ','), Kept(|Split(row, ',')|, lightCount))
    ensures r.Some? ==> |r.value| == Kept(|Split(row, ',')|, lightCount)
    ensures r.Some? ==> forall i :: 0 <= i < |r.value| ==> PyInt(Split(row, ',')[i]) == Some(r.value[i])
  {
    var ts := Split(row, ',');
    var k := Kept(|ts|, lightCount);
    ParsePrefix(ts, k)
  }

  /** `int()` rejects a `<count>x<index>` token, with or without the line terminator after it. */
  lemma RunTokenNotInt(run: Run<nat>, tok: string)
    requires run.count >= 2
    requires tok == SerializeValue(run) || tok == SerializeValue(run) + "\n"
    ensures PyInt(tok) == None
  {
    var c := Decimal(run.count);
    assert SerializeValue(run) == c + "x" + Decimal(run.value);
    assert tok[|c|] == 'x';
    PyIntRejects(tok, |c|);
  }

  /** The comma-separated parts of a bare row line: its tokens, the last one carrying the terminator. */
  lemma RowLineParts(runs: seq<Run<nat>>)
    requires |runs| >= 1
    ensures var parts := Split(GroupLine(1, runs) + "\n", ',');
      && |parts| == |runs|
      && (forall i :: 0 <= i < |runs| - 1 ==> parts[i] == SerializeValue(runs[i]))
      && parts[|runs| - 1] == SerializeValue(runs[|runs| - 1]) + "\n"
  {
    var ts := Tokens(runs);
    forall i | 0 <= i < |ts|
      ensures Free(ts[i], ',')
    {
      TokenFree(runs[i], ',');
    }
    SplitJoinSuffix(ts, ',', "\n");
  }

  /** A kept token that `int()` rejects makes the whole line unreadable. */
  lemma FrameRejected(line: string, lightCount: int, j: nat)
    requires j < |Split(line, ',')| && j < lightCount && PyInt(Split(line, ',')[j]) == None
    ensures ParseFrame(line, lightCount) == None
  {
    assert j < Kept(|Split(line, ',')|, lightCount);
  }

  /** A token of the serializer's `<n>x<v>` form, within the kept tokens, makes the line unreadable. */
  lemma RunTokenRejected(runs: seq<Run<nat>>, j: nat, lightCount: int)
    requires j < |runs| && runs[j].count >= 2 && j < lightCount
    ensures ParseFrame(GroupLine(1, runs) + "\n", lightCount) == None
  {
    var line := GroupLine(1, runs) + "\n";
    RowLineParts(runs);
    PartRejected(Split(line, ','), runs, j);
    FrameRejected(line, lightCount, j);
  }

  /** The `j`-th comma-separated part of a bare row line is a `<n>x<v>` token, which `int()` rejects. */
  lemma PartRejected(parts: seq<string>, runs: seq<Run<nat>>, j: nat)
    requires j < |runs| && runs[j].count >= 2 && |parts| == |runs|
    requires forall i :: 0 <= i < |runs| - 1 ==> parts[i] == SerializeValue(runs[i])
    requires parts[|runs| - 1] == SerializeValue(runs[|runs| - 1]) + "\n"
    ensures PyInt(parts[j]) == None
  {
    RunTokenNotInt(runs[j], parts[j]);
  }

  /** A `<n>r[...]` line of the serializer is unreadable whenever at least one token is kept. */
  lemma RepeatLineRejected(count: nat, runs: seq<Run<nat>>, lightCount: int)
    requires count >= 2 && lightCount >= 1
    ensures ParseFrame(GroupLine(count, runs) + "\n", lightCount) == None
  {
    var c := Decimal(count);
    DecimalDigits(count);
    DigitsFree(c, ',');
    var rest := "r[" + SerializeRow(runs) + "]" + "\n";
    assert GroupLine(count, runs) + "\n" == c + rest;
    SplitHead(c, rest, ',');
    SplitStart(rest, ',');
    var parts := Split(c + rest, ',');
    var tok := parts[0];
    assert tok == c + Split(rest, ',')[0];
    assert tok[|c|] == 'r';
    PyIntRejects(tok, |c|);
    assert 0 < Kept(|parts|, lightCount);
  }

  /** The serializer's lines for one run of three times index 0: framed twice, and bare. */
  lemma ExampleLines()
    ensures GroupLine(2, [Run(3, 0)]) + "\n" == "2r[3x0]\n"
    ensures GroupLine(1, [Run(3, 0)]) + "\n" == "3x0\n"
  {
    var runs := [Run(3, 0)];
    assert DigitChar(0) == '0' && DigitChar(2) == '2' && DigitChar(3) == '3';
    assert Decimal(0) == "0" && Decimal(2) == "2" && Decimal(3) == "3";
    assert SerializeValue(Run(3, 0)) == "3x0";
    assert Tokens(runs) == ["3x0"];
    assert SerializeRow(runs) == "3x0";
    assert GroupLine(2, runs) == "2r[3x0]";
    assert GroupLine(1, runs) == "3x0";
  }

  /** The line `2r[3x0]` of a two-frame effect makes the reader raise `ValueError`. */
  lemma RepeatedFrameLineRejected(line: string, lightCount: int)
    requires line == "2r[3x0]\n" && lightCount == 3
    ensures ParseFrame(line, lightCount) == None
  {
    ExampleLines();
    RepeatLineRejected(2, [Run(3, 0)], 3);
  }

  /** So does the line `3x0` of a one-frame effect. */
  lemma RepeatedIndexLineRejected(line: string, lightCount: int)
    requires line == "3x0\n" && lightCount == 3
    ensures ParseFrame(line, lightCount) == None
  {
    ExampleLines();
    RunTokenRejected([Run(3, 0)], 0, 3);
  }

  /** Why the generator stops: `RuntimeError` on the missing metadata line (the `StopIteration` of `next(f)` inside a generator body, as PEP 479 has it), `ValueError` from `int()` on the data line at `line`, or `TypeError` comparing with a `light_count` that is no number. */
  datatype ReadError = NoMetadataLine | NotAnInt(line: nat) | CountNotComparable

  /** What one step shows the consumer: a frame, the exception that ends the generator, or `StopIteration` from a generator that has ended. */
  datatype Event = Yielded(frame: Frame) | Raised(error: ReadError) | Exhausted

  /**
   * What the generator works from: whether the file has its metadata line, the
   * outcome of reading each data line in file order, and `batch_size`. Reading a
   * line depends on nothing but the line, so it is computed here once for all.
   */
  datatype Config = Config(header: bool, rows: seq<Result<Frame, ReadError>>, batchSize: int)

  /**
   * The generator's locals: the file position `pos` (the index of the next line,
   * the metadata line being line 0), `batch`, the frames of a released batch
   * still to be handed out (`out`), whether the end of file was reached
   * (`atEof`) and whether the generator ended with an exception (`done`).
   */
  datatype State = State(pos: nat, batch: seq<Frame>, out: seq<Frame>, atEof: bool, done: bool)

  /** A fresh generator, and the state after each `f.seek(0)`. */
  const Start := State(0, [], [], false, false)

  /** The frame of the data line `line` at file line `lineNo`, as the comprehension builds it. */
  function LineFrame(line: string, lineNo: nat, lightCount: Option<int>): (r: Result<Frame, ReadError>)
    ensures lightCount.None? ==> r == Err(CountNotComparable)
    ensures lightCount.Some? ==> (r.Ok? <==> AllInts(Split(line + "\n", ','), Kept(|Split(line + "\n", ',')|, lightCount.value)))
    ensures lightCount.Some? && r.Err? ==> r.error == NotAnInt(lineNo)
    ensures r.Ok? ==> lightCount.Some? && |r.value| == Kept(|Split(line + "\n", ',')|, lightCount.value)
  {
    match lightCount
    case None => Err(CountNotComparable)
    case Some(lc) =>
      match ParseFrame(line + "\n", lc)
      case Some(f) => Ok(f)
      case None => Err(NotAnInt(lineNo))
  }

  /** The generator over a file with lines `lines`: data line `i` is file line `i + 1`. */
  function ConfigOf(lines: seq<string>, lightCount: Option<int>, batchSize: int): (cfg: Config)
    ensures cfg.header <==> |lines| > 0
    ensures |cfg.rows| == if |lines| == 0 then 0 else |lines| - 1
    ensures forall i :: 0 <= i < |cfg.rows| ==> cfg.rows[i] == LineFrame(lines[i + 1], i + 1, lightCount)
    ensures cfg.batchSize == batchSize
  {
    if |lines| == 0 then Config(false, [], batchSize)
    else Config(true, seq(|lines| - 1, i requires 0 <= i < |lines| - 1 => LineFrame(lines[i + 1], i + 1, lightCount)), batchSize)
  }

  /**
   * One step of `read_frames`, showing at most one event. What a run of steps
   * yields, raises and rewinds is proved in `ReadTo`, `OnePass`, `Forever` and
   * `FailsAt`.
   */
  function Transition(cfg: Config, s: State): (r: (State, seq<Event>))
    ensures |r.1| <= 1
  {
    if s.done then (s, [Exhausted])
    else if |s.out| > 0 then (s.(out := s.out[1..]), [Yielded(s.out[0])])
    else if s.atEof then (s.(pos := 0, atEof := false), [])
    else if s.pos == 0 then
      if !cfg.header then (s.(done := true), [Raised(NoMetadataLine)])
      else (s.(pos := 1, batch := []), [])
    else if s.pos <= |cfg.rows| then
      match cfg.rows[s.pos - 1]
      case Err(e) => (s.(done := true), [Raised(e)])
      case Ok(f) =>
        var b := s.batch + [f];
        if |b| == cfg.batchSize then (s.(pos := s.pos + 1, batch := [], out := b), [])
        else (s.(pos := s.pos + 1, batch := b), [])
    else (s.(batch := [], out := s.batch, atEof := true), [])
  }

  /** `k` steps: the state reached and the events shown, in order. */
  function Steps(cfg: Config, s: State, k: nat): (State, seq<Event>)
    decreases k
  {
    if k == 0 then (s, [])
    else
      var first := Transition(cfg, s);
      var rest := Steps(cfg, first.0, k - 1);
      (rest.0, first.1 + rest.1)
  }

  /** One step of `Steps` is one `Transition`. */
  lemma StepOnce(cfg: Config, s: State)
    ensures Steps(cfg, s, 1) == Transition(cfg, s)
  {
    var first := Transition(cfg, s);
    assert Steps(cfg, first.0, 0) == (first.0, []);
    assert first.1 + [] == first.1;
  }

  /** Running `j` steps and then `k` more is running `j + k` steps. */
  lemma {:induction false} RunAdd(cfg: Config, s: State, j: nat, k: nat)
    ensures var a := Steps(cfg, s, j); var b := Steps(cfg, a.0, k); Steps(cfg, s, j + k) == (b.0, a.1 + b.1)
    decreases j
  {
    if j > 0 {
      var first := Transition(cfg, s);
      RunAdd(cfg, first.0, j - 1, k);
      assert j + k - 1 == (j - 1) + k;
      var a := Steps(cfg, first.0, j - 1);
      var b := Steps(cfg, a.0, k);
      assert Steps(cfg, s, j) == (a.0, first.1 + a.1);
      assert Steps(cfg, s, j + k) == (b.0, first.1 + (a.1 + b.1));
      assert first.1 + (a.1 + b.1) == (first.1 + a.1) + b.1;
    } else {
      var b := Steps(cfg, s, k);
      assert [] + b.1 == b.1;
    }
  }

  /** Two runs one after the other. */
  lemma Chain(cfg: Config, s: State, j: nat, mid: State, e1: seq<Event>, k: nat, end: State, e2: seq<Event>)
    requires Steps(cfg, s, j) == (mid, e1) && Steps(cfg, mid, k) == (end, e2)
    ensures Steps(cfg, s, j + k) == (end, e1 + e2)
  {
    RunAdd(cfg, s, j, k);
  }

  /** A silent step followed by two runs. */
  lemma Then(cfg: Config, s0: State, s1: State, j: nat, s2: State, e1: seq<Event>, k: nat, s3: State, e2: seq<Event>)
    requires Transition(cfg, s0) == (s1, [])
    requires Steps(cfg, s1, j) == (s2, e1) && Steps(cfg, s2, k) == (s3, e2)
    ensures Steps(cfg, s0, 1 + j + k) == (s3, e1 + e2)
  {
    StepOnce(cfg, s0);
    Chain(cfg, s1, j, s2, e1, k, s3, e2);
    Chain(cfg, s0, 1, s1, [], j + k, s3, e1 + e2);
    assert [] + (e1 + e2) == e1 + e2;
  }

  /** The events of handing out `fs`, one frame per `next()`. */
  function Yields(fs: seq<Frame>): (es: seq<Event>)
    ensures |es| == |fs|
  {
    if |fs| == 0 then [] else [Yielded(fs[0])] + Yields(fs[1..])
  }

  lemma {:induction false} YieldsAppend(a: seq<Frame>, b: seq<Frame>)
    ensures Yields(a + b) == Yields(a) + Yields(b)
  {
    if |a| > 0 {
      YieldsAppend(a[1..], b);
      assert (a + b)[1..] == a[1..] + b;
    } else {
      assert a + b == b;
    }
  }

  /** Every data line from file line `p` up to file line `q` can be read. */
  predicate Readable(cfg: Config, p: nat, q: nat)
  {
    1 <= p && q <= |cfg.rows| + 1 && forall i :: p - 1 <= i < q - 1 ==> cfg.rows[i].Ok?
  }

  /** The frames of file lines `p` up to `q`, in file order. */
  function FramesOf(cfg: Config, p: nat, q: nat): (fs: seq<Frame>)
    requires Readable(cfg, p, q)
    decreases q - p
    ensures p <= q ==> |fs| == q - p
  {
    if p >= q then [] else [cfg.rows[p - 1].value] + FramesOf(cfg, p + 1, q)
  }

  /** How many of `n` frames read into batches of `size` have been released in full batches. */
  function Released(n: nat, size: int): (r: nat)
    ensures r <= n
    ensures size >= 1 ==> n - r < size
    decreases n
  {
    if size < 1 || n < size then 0 else size + Released(n - size, size)
  }

  /** The state just before reading data line `p`, with `b` collected and nothing waiting to be handed out. */
  function Reading(p: nat, b: seq<Frame>): State
  {
    State(p, b, [], false, false)
  }

  /** Handing out a released batch takes one step per frame. */
  lemma {:induction false} Drain(cfg: Config, p: nat, o: seq<Frame>)
    ensures Steps(cfg, State(p, [], o, false, false), |o|) == (Reading(p, []), Yields(o))
  {
    if |o| > 0 {
      Drain(cfg, p, o[1..]);
    }
  }

  /**
   * Reading file lines `p` up to `q` starting with a partial batch `b`: every
   * frame is handed out in file order, in whole batches, and the frames of the
   * last partial batch are still held when line `q` is reached.
   */
  lemma {:induction false} ReadTo(cfg: Config, p: nat, b: seq<Frame>, q: nat, all: seq<Frame>)
    requires p <= q && Readable(cfg, p, q)
    requires cfg.batchSize >= 1 ==> |b| < cfg.batchSize
    requires all == b + FramesOf(cfg, p, q)
    ensures var r := Released(|all|, cfg.batchSize);
      Steps(cfg, Reading(p, b), (q - p) + r) == (Reading(q, all[r..]), Yields(all[..r]))
    decreases q - p, 1
  {
    if p == q {
      ReadNothing(cfg, p, b, q, all);
    } else if |b| + 1 == cfg.batchSize {
      ReadCompleting(cfg, p, b, q, all, Released(|all|, cfg.batchSize));
    } else {
      ReadFilling(cfg, p, b, q, all, Released(|all|, cfg.batchSize));
    }
  }

  /** `ReadTo` when line `p` completes the batch. */
  lemma ReadCompleting(cfg: Config, p: nat, b: seq<Frame>, q: nat, all: seq<Frame>, r: nat)
    requires p < q && Readable(cfg, p, q)
    requires |b| + 1 == cfg.batchSize
    requires all == b + FramesOf(cfg, p, q) && r == Released(|all|, cfg.batchSize)
    ensures Steps(cfg, Reading(p, b), (q - p) + r) == (Reading(q, all[r..]), Yields(all[..r]))
    decreases q - p, 0
  {
    NextLine(cfg, p, q);
    var b1 := b + [cfg.rows[p - 1].value];
    var rest := FramesOf(cfg, p + 1, q);
    var r1 := Released(|rest|, cfg.batchSize);
    assert r == |b1| + r1 by {
      assert all == b1 + rest;
    }
    assert [] + rest == rest;
    ReadTo(cfg, p + 1, [], q, rest);
    ReleaseLine(cfg, p, b, q, rest, r1, all, r);
  }

  /** `ReadTo` when line `p` leaves the batch unfinished. */
  lemma ReadFilling(cfg: Config, p: nat, b: seq<Frame>, q: nat, all: seq<Frame>, r: nat)
    requires p < q && Readable(cfg, p, q)
    requires cfg.batchSize >= 1 ==> |b| + 1 < cfg.batchSize
    requires all == b + FramesOf(cfg, p, q) && r == Released(|all|, cfg.batchSize)
    ensures Steps(cfg, Reading(p, b), (q - p) + r) == (Reading(q, all[r..]), Yields(all[..r]))
    decreases q - p, 0
  {
    NextLine(cfg, p, q);
    var b1 := b + [cfg.rows[p - 1].value];
    ReadTo(cfg, p + 1, b1, q, all);
    KeepLine(cfg, p, b, q, all, r);
  }

  /** Line `p` can be read, and so can the lines after it. */
  lemma NextLine(cfg: Config, p: nat, q: nat)
    requires p < q && Readable(cfg, p, q)
    ensures p <= |cfg.rows| && cfg.rows[p - 1].Ok? && Readable(cfg, p + 1, q)
    ensures FramesOf(cfg, p, q) == [cfg.rows[p - 1].value] + FramesOf(cfg, p + 1, q)
  {
  }

  /** No line to read: the partial batch is all there is. */
  lemma ReadNothing(cfg: Config, p: nat, b: seq<Frame>, q: nat, all: seq<Frame>)
    requires p == q && all == b && (cfg.batchSize >= 1 ==> |b| < cfg.batchSize)
    ensures var r := Released(|all|, cfg.batchSize);
      Steps(cfg, Reading(p, b), (q - p) + r) == (Reading(q, all[r..]), Yields(all[..r]))
  {
    assert Released(|b|, cfg.batchSize) == 0;
    assert b[0..] == b && b[..0] == [];
  }

  /** Reading line `p` completes a batch: it is handed out before line `p + 1` is read. */
  lemma ReleaseLine(cfg: Config, p: nat, b: seq<Frame>, q: nat, rest: seq<Frame>, r1: nat, all: seq<Frame>, r: nat)
    requires 1 <= p < q && p <= |cfg.rows| && cfg.rows[p - 1].Ok?
    requires |b| + 1 == cfg.batchSize && r1 <= |rest|
    requires all == b + [cfg.rows[p - 1].value] + rest && r == |b| + 1 + r1
    requires Steps(cfg, Reading(p + 1, []), (q - p - 1) + r1) == (Reading(q, rest[r1..]), Yields(rest[..r1]))
    ensures Steps(cfg, Reading(p, b), (q - p) + r) == (Reading(q, all[r..]), Yields(all[..r]))
  {
    var b1 := b + [cfg.rows[p - 1].value];
    var full := State(p + 1, [], b1, false, false);
    Drain(cfg, p + 1, b1);
    Then(cfg, Reading(p, b), full, |b1|, Reading(p + 1, []), Yields(b1), (q - p - 1) + r1, Reading(q, rest[r1..]), Yields(rest[..r1]));
    assert all[..r] == b1 + rest[..r1];
    assert all[r..] == rest[r1..];
    YieldsAppend(b1, rest[..r1]);
  }

  /** Reading line `p` leaves the batch unfinished. */
  lemma KeepLine(cfg: Config, p: nat, b: seq<Frame>, q: nat, all: seq<Frame>, r: nat)
    requires 1 <= p < q && p <= |cfg.rows| && cfg.rows[p - 1].Ok?
    requires |b| + 1 != cfg.batchSize && r <= |all|
    requires Steps(cfg, Reading(p + 1, b + [cfg.rows[p - 1].value]), (q - p - 1) + r) == (Reading(q, all[r..]), Yields(all[..r]))
    ensures Steps(cfg, Reading(p, b), (q - p) + r) == (Reading(q, all[r..]), Yields(all[..r]))
  {
    var b1 := b + [cfg.rows[p - 1].value];
    Then(cfg, Reading(p, b), Reading(p + 1, b1), (q - p - 1) + r, Reading(q, all[r..]), Yields(all[..r]), 0, Reading(q, all[r..]), []);
    assert Yields(all[..r]) + [] == Yields(all[..r]);
  }

  /** The position of the end of file. */
  function End(cfg: Config): nat
  {
    |cfg.rows| + 1
  }

  /** End of file with a partial batch `b`: it is handed out, then the file is rewound. */
  lemma EndOfFile(cfg: Config, b: seq<Frame>)
    ensures Steps(cfg, Reading(End(cfg), b), |b| + 2) == (Start, Yields(b))
  {
    var s0 := Reading(End(cfg), b);
    var s1 := State(End(cfg), [], b, true, false);
    var s2 := State(End(cfg), [], [], true, false);
    DrainAtEof(cfg, End(cfg), b);
    assert Transition(cfg, s2) == (Start, []);
    StepOnce(cfg, s2);
    Then(cfg, s0, s1, |b|, s2, Yields(b), 1, Start, []);
    assert Yields(b) + [] == Yields(b);
  }

  lemma {:induction false} DrainAtEof(cfg: Config, p: nat, o: seq<Frame>)
    ensures Steps(cfg, State(p, [], o, true, false), |o|) == (State(p, [], [], true, false), Yields(o))
  {
    if |o| > 0 {
      DrainAtEof(cfg, p, o[1..]);
    }
  }

  /** All data lines can be read. */
  predicate AllReadable(cfg: Config)
  {
    cfg.header && Readable(cfg, 1, End(cfg))
  }

  /** The frames of all data lines, in file order. */
  function AllFrames(cfg: Config): seq<Frame>
    requires AllReadable(cfg)
  {
    FramesOf(cfg, 1, End(cfg))
  }

  /**
   * One pass over a file of `n` lines takes `2n + 1` steps and hands out the
   * frames of all data lines in file order, whatever the batch size, ending
   * rewound where it began.
   */
  lemma OnePass(cfg: Config)
    requires AllReadable(cfg)
    ensures Steps(cfg, Start, 2 * End(cfg) + 1) == (Start, Yields(AllFrames(cfg)))
  {
    var all := AllFrames(cfg);
    var r := Released(|all|, cfg.batchSize);
    assert [] + all == all;
    ReadTo(cfg, 1, [], End(cfg), all);
    PassFrom(cfg, all, r);
  }

  lemma PassFrom(cfg: Config, all: seq<Frame>, r: nat)
    requires cfg.header && |all| == |cfg.rows| && r <= |all|
    requires Steps(cfg, Reading(1, []), (End(cfg) - 1) + r) == (Reading(End(cfg), all[r..]), Yields(all[..r]))
    ensures Steps(cfg, Start, 2 * End(cfg) + 1) == (Start, Yields(all))
  {
    var n := End(cfg);
    var head := all[..r];
    var tail := all[r..];
    EndOfFile(cfg, tail);
    Then(cfg, Start, Reading(1, []), (n - 1) + r, Reading(n, tail), Yields(head), |tail| + 2, Start, Yields(tail));
    YieldsAppend(head, tail);
    assert head + tail == all;
  }

  /** The generator never ends on its own: `k` passes hand out the data frames `k` times over. */
  lemma Forever(cfg: Config, k: nat)
    requires AllReadable(cfg)
    ensures Steps(cfg, Start, k * (2 * End(cfg) + 1)) == (Start, Yields(Cycle(AllFrames(cfg), k)))
  {
    OnePass(cfg);
    Repeatedly(cfg, 2 * End(cfg) + 1, AllFrames(cfg), k);
  }

  /** A run of `len` steps that hands out `fs` and comes back to the start, done `k` times over. */
  lemma {:induction false} Repeatedly(cfg: Config, len: nat, fs: seq<Frame>, k: nat)
    requires Steps(cfg, Start, len) == (Start, Yields(fs))
    ensures Steps(cfg, Start, k * len) == (Start, Yields(Cycle(fs, k)))
  {
    if k > 0 {
      Repeatedly(cfg, len, fs, k - 1);
      MulSucc(k, len);
      PassThen(cfg, len, fs, (k - 1) * len, Cycle(fs, k - 1));
    }
  }

  lemma MulSucc(k: nat, len: nat)
    requires k > 0
    ensures k * len == len + (k - 1) * len
  {
  }

  /** A pass followed by more passes. */
  lemma PassThen(cfg: Config, j: nat, fs: seq<Frame>, m: nat, gs: seq<Frame>)
    requires Steps(cfg, Start, j) == (Start, Yields(fs)) && Steps(cfg, Start, m) == (Start, Yields(gs))
    ensures Steps(cfg, Start, j + m) == (Start, Yields(fs + gs))
  {
    Chain(cfg, Start, j, Start, Yields(fs), m, Start, Yields(gs));
    YieldsAppend(fs, gs);
  }

  /**
   * A line that cannot be read ends the generator with its exception, after the
   * frames of the batches released before it; the frames collected in the
   * unfinished batch are never handed out.
   */
  lemma FailsAt(cfg: Config, p: nat)
    requires cfg.header && 1 <= p < End(cfg) && Readable(cfg, 1, p) && cfg.rows[p - 1].Err?
    ensures var all := FramesOf(cfg, 1, p); var r := Released(|all|, cfg.batchSize);
      Steps(cfg, Start, p + r + 1) == (State(p, all[r..], [], false, true), Yields(all[..r]) + [Raised(cfg.rows[p - 1].error)])
  {
    var all := FramesOf(cfg, 1, p);
    var r := Released(|all|, cfg.batchSize);
    var e := cfg.rows[p - 1].error;
    var failed := State(p, all[r..], [], false, true);
    assert [] + all == all;
    ReadTo(cfg, 1, [], p, all);
    assert Transition(cfg, Reading(p, all[r..])) == (failed, [Raised(e)]);
    StepOnce(cfg, Reading(p, all[r..]));
    Then(cfg, Start, Reading(1, []), (p - 1) + r, Reading(p, all[r..]), Yields(all[..r]), 1, failed, [Raised(e)]);
  }

  /** After the exception every further `next()` raises `StopIteration`. */
  lemma {:induction false} StaysExhausted(cfg: Config, s: State, k: nat)
    requires s.done
    ensures Steps(cfg, s, k).0 == s && |Steps(cfg, s, k).1| == k
    ensures forall i :: 0 <= i < k ==> Steps(cfg, s, k).1[i] == Exhausted
    decreases k
  {
    if k > 0 {
      StaysExhausted(cfg, s, k - 1);
      assert Steps(cfg, s, k).1 == [Exhausted] + Steps(cfg, s, k - 1).1;
    }
  }

  /** The states a file with only its metadata line cycles through. */
  predicate Idle(s: State)
  {
    !s.done && s.out == [] && s.batch == [] && s.pos <= 1 && (s.atEof ==> s.pos == 1)
  }

  /** A file with no data lines never yields a frame: the generator rewinds forever. */
  lemma {:induction false} NoDataNoFrames(cfg: Config, s: State, k: nat)
    requires cfg.header && cfg.rows == [] && Idle(s)
    ensures Idle(Steps(cfg, s, k).0) && Steps(cfg, s, k).1 == []
    decreases k
  {
    if k > 0 {
      var first := Transition(cfg, s);
      assert Idle(first.0) && first.1 == [];
      NoDataNoFrames(cfg, first.0, k - 1);
    }
  }

  /**
   * Memory stays bounded: with a positive batch size, fewer than a batch of frames
   * is collected and at most one batch waits to be handed out, never both at once.
   */
  predicate Bounded(cfg: Config, s: State)
  {
    && (cfg.batchSize >= 1 ==> |s.batch| < cfg.batchSize && |s.out| <= cfg.batchSize)
    && (s.out != [] ==> s.batch == [])
  }

  lemma StepBounded(cfg: Config, s: State)
    requires Bounded(cfg, s)
    ensures Bounded(cfg, Transition(cfg, s).0)
    ensures |Transition(cfg, s).1| <= 1
  {
  }

  /** Python's `TypeError` for a `light_count` that cannot be compared with an index; a bool counts as 0 or 1. */
  function CountOf(j: Json): (n: Option<int>)
    ensures n.Some? <==> j.JNum? || j.JBool?
    ensures j.JNum? ==> n == Some(j.n)
  {
    match j
    case JNum(n) => Some(n)
    case JBool(b) => Some(if b then 1 else 0)
    case _ => None
  }

  /** Why the constructor raises: `StopIteration` on an empty file, `ValueError` from `json.loads`, `TypeError` on metadata that is not an object, `KeyError` on a missing key. */
  datatype OpenError = EmptyFile | BadJson | NotAnObject | MissingKey(key: string)

  /** What `__init__` takes from the first line: `frame_delay_ms` and `light_count`. */
  function ReadMetadata(lines: seq<string>, loads: string -> Option<Json>): (r: Result<(Json, Json), OpenError>)
    ensures r.Ok? ==> |lines| > 0 && loads(lines[0] + "\n").Some? && loads(lines[0] + "\n").value.JObj?
    ensures r.Ok? ==> var fields := loads(lines[0] + "\n").value.fields;
      "frame_delay_ms" in fields && "light_count" in fields && r.value == (fields["frame_delay_ms"], fields["light_count"])
  {
    if |lines| == 0 then Err(EmptyFile)
    else match loads(lines[0] + "\n")
      case None => Err(BadJson)
      case Some(JObj(fields)) =>
        if "frame_delay_ms" !in fields then Err(MissingKey("frame_delay_ms"))
        else if "light_count" !in fields then Err(MissingKey("light_count"))
        else Ok((fields["frame_delay_ms"], fields["light_count"]))
      case Some(_) => Err(NotAnObject)
  }

  /** The metadata line `serialize` writes is what the constructor reads, when `loads` inverts `dumps`. */
  lemma ReadsSerializedMetadata(fields: map<string, Json>, rest: seq<string>, dumps: Json -> string, loads: string -> Option<Json>)
    requires loads(dumps(JObj(fields)) + "\n") == Some(JObj(fields))
    requires "frame_delay_ms" in fields && "light_count" in fields
    ensures ReadMetadata([dumps(JObj(fields))] + rest, loads) == Ok((fields["frame_delay_ms"], fields["light_count"]))
  {
  }

  class EffectReader {
    const batchSize: int
    const effectName: string
    const file: TextFile
    const frameDelayMs: Json
    const lightCount: Json

    constructor (file: TextFile, effectName: string, batchSize: int, frameDelayMs: Json, lightCount: Json)
      ensures this.file == file && this.effectName == effectName && this.batchSize == batchSize
      ensures this.frameDelayMs == frameDelayMs && this.lightCount == lightCount
    {
      this.file := file;
      this.effectName := effectName;
      this.batchSize := batchSize;
      this.frameDelayMs := frameDelayMs;
      this.lightCount := lightCount;
    }

    /** `effect_reader(filename, effect_name, batch_size=20)`; `json.loads` is the `loads` parameter. */
    static method Open(file: TextFile, effectName: string, loads: string -> Option<Json>, batchSize: int := 20)
      returns (r: Result<EffectReader, OpenError>)
      ensures r.Ok? <==> ReadMetadata(file.lines, loads).Ok?
      ensures r.Err? ==> r.error == ReadMetadata(file.lines, loads).error
      ensures r.Ok? ==>
        && fresh(r.value) && r.value.file == file && r.value.batchSize == batchSize
        && r.value.effectName == effectName
        && (r.value.frameDelayMs, r.value.lightCount) == ReadMetadata(file.lines, loads).value
    {
      var m := ReadMetadata(file.lines, loads);
      if m.Err? {
        return Err(m.error);
      }
      var reader := new EffectReader(file, effectName, batchSize, m.value.0, m.value.1);
      return Ok(reader);
    }

    /** `read_frames()`: a generator over the file as it is now, not yet started. */
    method ReadFrames() returns (g: FrameGenerator)
      ensures fresh(g) && g.cfg == ConfigOf(file.lines, CountOf(lightCount), batchSize) && g.state == Start
    {
      g := new FrameGenerator(ConfigOf(file.lines, CountOf(lightCount), batchSize));
    }
  }

  class FrameGenerator {
    const cfg: Config
    var state: State

    constructor (cfg: Config)
      ensures this.cfg == cfg && state == Start
    {
      this.cfg := cfg;
      state := Start;
    }

    /**
     * One step of the generator's body, in place: the imperative rendering of
     * `Transition`, checked against it. Returns what the step yields or raises.
     */
    method Advance() returns (events: seq<Event>)
      modifies this
      ensures (state, events) == Transition(cfg, old(state))
    {
      var s := state;
      if s.done {
        events := [Exhausted];
      } else if |s.out| > 0 {
        events := [Yielded(s.out[0])];
        state := s.(out := s.out[1..]);
      } else if s.atEof {
        events := [];
        state := s.(pos := 0, atEof := false);
      } else if s.pos == 0 {
        if !cfg.header {
          events := [Raised(NoMetadataLine)];
          state := s.(done := true);
        } else {
          events := [];
          state := s.(pos := 1, batch := []);
        }
      } else if s.pos <= |cfg.rows| {
        var row := cfg.rows[s.pos - 1];
        if row.Err? {
          events := [Raised(row.error)];
          state := s.(done := true);
        } else {
          var b := s.batch + [row.value];
          events := [];
          if |b| == cfg.batchSize {
            state := s.(pos := s.pos + 1, batch := [], out := b);
          } else {
            state := s.(pos := s.pos + 1, batch := b);
          }
        }
      } else {
        events := [];
        state := s.(batch := [], out := s.batch, atEof := true);
      }
    }
  }
}
