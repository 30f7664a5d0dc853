/**
 * The offline Color dataclass (`effects/color.py`): fields default to 0, the
 * `rgb` factory divides by 255 only when the argument triple compares above
 * (1, 1, 1) as a Python tuple, and `*`/`+` copy the object and then apply the
 * in-place operator to the copy.
 */
module EffectsColor {
  import opened Channels

  /**
   * Python's `xs > ys` on tuples: the first position where the elements differ
   * decides; if there is none, the longer tuple is the greater. No tuple is
   * greater than itself, and the empty tuple is greater than none.
   */
  predicate TupleGreater(xs: seq<real>, ys: seq<real>)
    decreases |xs|
    ensures TupleGreater(xs, ys) ==> |xs| > 0
    ensures xs == ys ==> !TupleGreater(xs, ys)
  {
    if |xs| == 0 || |ys| == 0 then |xs| > |ys|
    else if xs[0] != ys[0] then xs[0] > ys[0]
    else TupleGreater(xs[1..], ys[1..])
  }

  /**
   * Whether `rgb` treats its arguments as 0..255 values. The test is decided by
   * the first channel that differs from 1: a red channel above 1 divides whatever
   * follows, one below 1 never divides, and `(1, 1, 1)` is not divided.
   */
  predicate Divides(r: real, g: real, b: real)
    ensures Divides(r, g, b) <==> r > 1.0 || (r == 1.0 && (g > 1.0 || (g == 1.0 && b > 1.0)))
  {
    var xs, ys := [r, g, b], [1.0, 1.0, 1.0];
    assert xs[1..] == [g, b] && ys[1..] == [1.0, 1.0];
    assert [g, b][1..] == [b] && [1.0, 1.0][1..] == [1.0];
    assert [b][1..] == [] && [1.0][1..] == [];
    assert TupleGreater([b], [1.0]) == (b > 1.0);
    assert TupleGreater([g, b], [1.0, 1.0]) == (if g != 1.0 then g > 1.0 else b > 1.0);
    TupleGreater(xs, ys)
  }

  /** `Color.rgb(r, g, b)`. */
  function FromRgbArgs(r: real, g: real, b: real): Rgb
  {
    if Divides(r, g, b) then Rgb(r / 255.0, g / 255.0, b / 255.0) else Rgb(r, g, b)
  }

  /**
   * Consequences: `(0.5, 200, 200)` is kept as it is, `(1, 2, 0)` is divided, and
   * `(1, 1, 1)` stays white rather than becoming 1/255 per channel.
   */
  lemma RgbExamples()
    ensures FromRgbArgs(0.5, 200.0, 200.0) == Rgb(0.5, 200.0, 200.0)
    ensures FromRgbArgs(1.0, 2.0, 0.0) == Rgb(1.0 / 255.0, 2.0 / 255.0, 0.0)
    ensures FromRgbArgs(1.0, 1.0, 1.0) == Rgb(1.0, 1.0, 1.0)
  {
  }

  /** For a triple that is divided, channels in 0..255 become channels in [0, 1]. */
  lemma FromRgbArgsInUnit(r: real, g: real, b: real)
    requires Divides(r, g, b)
    requires 0.0 <= r <= 255.0 && 0.0 <= g <= 255.0 && 0.0 <= b <= 255.0
    ensures InUnit(FromRgbArgs(r, g, b))
  {
  }

  class Color {
    var r: real
    var g: real
    var b: real

    function Value(): Rgb
      reads this
    {
      Rgb(r, g, b)
    }

    /** The dataclass constructor: every field defaults to 0. */
    constructor (r: real := 0.0, g: real := 0.0, b: real := 0.0)
      ensures Value() == Rgb(r, g, b)
    {
      this.r, this.g, this.b := r, g, b;
    }

    /** The `rgb` static method. */
    static method FromRgb(r: real, g: real, b: real) returns (res: Color)
      ensures fresh(res) && res.Value() == FromRgbArgs(r, g, b)
    {
      res := new Color();
      var r', g', b' := r, g, b;
      if Divides(r, g, b) {
        r', g', b' := r / 255.0, g / 255.0, b / 255.0;
      }
      res.r, res.g, res.b := r', g', b';
    }

    method Copy() returns (res: Color)
      ensures fresh(res) && res.Value() == Value()
    {
      res := new Color();
      res.r, res.g, res.b := r, g, b;
    }

    /** `self *= mult`, with the multiplier capped at 1. */
    method IMul(mult: real)
      modifies this
      ensures Value() == Scaled(old(Value()), mult)
    {
      var m := mult;
      if m > 1.0 {
        m := 1.0;
      }
      r := r * m;
      g := g * m;
      b := b * m;
    }

    /** `self * mult`: a copy, then `*=` on the copy. */
    method Mul(mult: real) returns (res: Color)
      ensures fresh(res) && res.Value() == Scaled(Value(), mult)
    {
      res := Copy();
      res.IMul(mult);
    }

    /** `self += other`, each channel clamped above at 1. */
    method IAdd(other: Color)
      modifies this
      ensures Value() == Sum(old(Value()), old(other.Value()))
    {
      r := r + other.r;
      g := g + other.g;
      b := b + other.b;
      if r > 1.0 {
        r := 1.0;
      }
      if g > 1.0 {
        g := 1.0;
      }
      if b > 1.0 {
        b := 1.0;
      }
    }

    /** `self + other`: a copy, then `+=` on the copy; neither operand changes. */
    method Add(other: Color) returns (res: Color)
      ensures fresh(res) && res.Value() == Sum(Value(), other.Value())
    {
      res := Copy();
      res.IAdd(other);
    }

    /** `self.blend(other, fraction)`. */
    method BlendWith(other: Color, fraction: real) returns (res: Color)
      ensures fresh(res) && res.Value() == Blend(Value(), other.Value(), fraction)
    {
      var left := Mul(1.0 - fraction);
      var right := other.Mul(fraction);
      res := left.Add(right);
    }
  }
}
