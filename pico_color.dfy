/**
 * The on-device Color class (`pico/Color.py`): three mutable channel fields,
 * a constructor defaulting to (1, 1, 1), an `rgb` factory that always divides
 * by 255, dictionary conversion through `__iter__`, and the arithmetic of
 * `Channels`. The in-place operators change the object; the others build a copy.
 */
module PicoColor {
  import opened Base
  import opened Channels

  /** `Color.rgb(r, g, b)`: every argument is divided by 255, with no range detection. */
  function FromRgbArgs(r: real, g: real, b: real): (c: Rgb)
    ensures c.r * 255.0 == r && c.g * 255.0 == g && c.b * 255.0 == b
  {
    Rgb(r / 255.0, g / 255.0, b / 255.0)
  }

  /** The `{r, g, b}` dictionary of a command payload or a state payload. */
  type ColorDict = map<string, real>

  /** `Color.from_dict(d)`; a missing key raises `KeyError`, modelled as `None`. */
  function FromDict(d: ColorDict): (c: Option<Rgb>)
    ensures c.Some? <==> "r" in d && "g" in d && "b" in d
  {
    if "r" in d && "g" in d && "b" in d then Some(FromRgbArgs(d["r"], d["g"], d["b"])) else None
  }

  /** `dict(c)`: the pairs `__iter__` yields, each channel times 255. */
  function AsDict(c: Rgb): (d: ColorDict)
    ensures d.Keys == {"r", "g", "b"}
    ensures FromDict(d) == Some(c)
  {
    map["r" := c.r * 255.0, "g" := c.g * 255.0, "b" := c.b * 255.0]
  }

  /** `dict(Color.from_dict(d))` gives back the three entries of `d`. */
  lemma DictRoundTrip(d: ColorDict)
    requires "r" in d && "g" in d && "b" in d
    ensures FromDict(d).Some?
    ensures AsDict(FromDict(d).value) == map["r" := d["r"], "g" := d["g"], "b" := d["b"]]
  {
  }

  /**
   * `Color.rgb(1, 1, 1)`, the light's initial colour, is 1/255 per channel, which
   * `to_tuple` renders as the byte triple (1, 1, 1), not white.
   */
  lemma UnitArgumentsAreNearBlack()
    ensures FromRgbArgs(1.0, 1.0, 1.0) == Rgb(1.0 / 255.0, 1.0 / 255.0, 1.0 / 255.0)
    ensures Bytes(FromRgbArgs(1.0, 1.0, 1.0)) == (1, 1, 1)
  {
    assert 1.0 / 255.0 * 255.0 == 1.0;
  }

  /** `__eq__`: exact match on all three channels. */
  function Equal(c: Rgb, o: Rgb): (eq: bool)
    ensures eq <==> c == o
  {
    c.r == o.r && c.g == o.g && c.b == o.b
  }

  class Color {
    var r: real
    var g: real
    var b: real

    /** The channel values this object currently holds. */
    function Value(): Rgb
      reads this
    {
      Rgb(r, g, b)
    }

    /** `Color(r=1, g=1, b=1)`: the constructor stores its arguments unchanged. */
    constructor (r: real := 1.0, g: real := 1.0, b: real := 1.0)
      ensures Value() == Rgb(r, g, b)
    {
      this.r, this.g, this.b := r, g, b;
    }

    /** The `rgb` class method. */
    static method FromRgb(r: real, g: real, b: real) returns (res: Color)
      ensures fresh(res) && res.Value() == FromRgbArgs(r, g, b)
      ensures res.Value().r * 255.0 == r
    {
      res := new Color();
      res.r, res.g, res.b := r / 255.0, g / 255.0, b / 255.0;
    }

    method Copy() returns (res: Color)
      ensures fresh(res) && res.Value() == Value()
    {
      res := new Color();
      res.r, res.g, res.b := r, g, b;
    }

    /** `self *= mult`. */
    method IMul(mult: real)
      modifies this
      ensures Value() == Scaled(old(Value()), mult)
    {
      var m := mult;
      if m > 1.0 {
        m := 1.0;
      }
      r := r * m;
      g := g * m;
      b := b * m;
    }

    /** `self * mult`: caps the factor, then scales a copy; `self` is left as it was. */
    method Mul(mult: real) returns (res: Color)
      ensures fresh(res) && res.Value() == Scaled(Value(), mult)
    {
      var m := mult;
      if m > 1.0 {
        m := 1.0;
      }
      res := Copy();
      res.r := res.r * m;
      res.g := res.g * m;
      res.b := res.b * m;
    }

    /** `self += other`: channel sums, each clamped above at 1. */
    method IAdd(other: Color)
      modifies this
      ensures Value() == Sum(old(Value()), old(other.Value()))
    {
      r := r + other.r;
      g := g + other.g;
      b := b + other.b;
      if r > 1.0 {
        r := 1.0;
      }
      if g > 1.0 {
        g := 1.0;
      }
      if b > 1.0 {
        b := 1.0;
      }
    }

    /** `self + other`, computed on a copy of `self`. */
    method Add(other: Color) returns (res: Color)
      ensures fresh(res) && res.Value() == Sum(Value(), other.Value())
    {
      res := Copy();
      res.r := res.r + other.r;
      res.g := res.g + other.g;
      res.b := res.b + other.b;
      if res.r > 1.0 {
        res.r := 1.0;
      }
      if res.g > 1.0 {
        res.g := 1.0;
      }
      if res.b > 1.0 {
        res.b := 1.0;
      }
    }

    /** `self.blend(other, fraction)`: `self * (1 - fraction) + other * fraction`. */
    method BlendWith(other: Color, fraction: real) returns (res: Color)
      ensures fresh(res) && res.Value() == Blend(Value(), other.Value(), fraction)
    {
      var left := Mul(1.0 - fraction);
      var right := other.Mul(fraction);
      res := left.Add(right);
    }
  }
}
