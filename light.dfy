/**
 * `Light.py`: the light entity. It holds `is_on`, `color`, `brightness` and
 * `effect`, interprets JSON commands, and runs at most one brightness and one
 * colour transition at a time. Each transition is a background task that
 * writes `ceil(transition_duration_ms / frame_duration_ms)` interpolated values,
 * one per frame. Outbound state messages are kept as a log of payload records.
 *
 * A task is a `Task` object: the values its loop writes, the index of the next
 * frame, and the flag `cancel()` sets. One call of `BrightnessFrame` or
 * `ColorFrame` is one pass through the body of the task's `for` loop.
 */
module LightControl {
  import opened Base
  import opened Channels
  import opened PicoColor

  /** `math.ceil(x)`. */
  function Ceil(x: real): (c: int)
    ensures c as real - 1.0 < x <= c as real
  {
    -((-x).Floor)
  }

  /**
   * `math.ceil(transition_duration_ms / frame_duration_ms)`, as the number of
   * iterations `range` makes of it. A zero frame duration raises
   * `ZeroDivisionError` before the first write; a negative count writes nothing.
   */
  function FrameCount(durationMs: int, frameMs: int): (n: nat)
    ensures frameMs > 0 && durationMs > 0 ==> (n - 1) * frameMs < durationMs <= n * frameMs
    ensures frameMs == 0 || (durationMs <= 0 && frameMs > 0) ==> n == 0
  {
    if frameMs == 0 then 0
    else
      var c := Ceil(durationMs as real / frameMs as real);
      if c < 0 then 0
      else if frameMs > 0 && durationMs > 0 then
        CeilBounds(durationMs, frameMs, c);
        c
      else c
  }

  lemma CeilBounds(d: int, f: int, c: int)
    requires f > 0 && d > 0
    requires c as real - 1.0 < d as real / f as real <= c as real
    ensures (c - 1) * f < d <= c * f
  {
    var q, fr := d as real / f as real, f as real;
    assert q * fr == d as real;
    MulStrict(c as real - 1.0, q, fr);
    MulMono(q, c as real, fr);
    assert ((c - 1) * f) as real == (c as real - 1.0) * fr;
    assert (c * f) as real == c as real * fr;
  }

  lemma MulStrict(a: real, b: real, f: real)
    requires a < b && f > 0.0
    ensures a * f < b * f
  {
    assert b * f - a * f == (b - a) * f;
  }

  lemma MulMono(a: real, b: real, f: real)
    requires a <= b && f >= 0.0
    ensures a * f <= b * f
  {
    assert b * f - a * f == (b - a) * f;
  }

  /** A non-negative amount scaled by a fraction in [0, 1] lies between 0 and itself. */
  lemma ScaleDown(d: real, f: real)
    requires 0.0 <= f <= 1.0
    ensures 0.0 <= d ==> 0.0 <= d * f <= d
    ensures d <= 0.0 ==> d <= d * f <= 0.0
  {
    MulMono(0.0, f, d * d);
    if d >= 0.0 {
      MulMono(0.0, d, f);
      MulMono(f, 1.0, d);
    } else {
      MulMono(d, 0.0, f);
      assert d * f - d == d * (f - 1.0);
      MulMono(0.0, 1.0 - f, -d);
    }
  }

  /** The default timing: 500 ms in frames of 30 ms is 17 frames. */
  lemma DefaultFrameCount()
    ensures FrameCount(500, 30) == 17
  {
    assert 16 * 30 < 500 <= 17 * 30;
  }

  /** `start * (1 - frac) + target * frac`. */
  function Lerp(start: real, target: real, frac: real): (v: real)
    ensures frac == 0.0 ==> v == start
    ensures frac == 1.0 ==> v == target
  {
    start * (1.0 - frac) + target * frac
  }

  /** An interpolation between two values at a fraction in [0, 1] lies between them. */
  lemma LerpBetween(a: real, b: real, f: real)
    requires 0.0 <= f <= 1.0
    ensures a <= b ==> a <= Lerp(a, b, f) <= b
    ensures b <= a ==> b <= Lerp(a, b, f) <= a
  {
    assert Lerp(a, b, f) == a + (b - a) * f;
    ScaleDown(b - a, f);
  }

  /** Truncation of a value between two integers stays between them. */
  lemma TruncBetween(x: real, lo: int, hi: int)
    requires lo as real <= x <= hi as real
    ensures lo <= Trunc(x) <= hi
  {
  }

  /** The value frame `k` of `n` writes: `int(start * (1 - k / n) + target * k / n)`. */
  function BrightnessAt(start: int, target: int, n: nat, k: nat): (w: int)
    requires k < n
    ensures start <= target ==> start <= w <= target
    ensures target <= start ==> target <= w <= start
    ensures k == 0 ==> w == start
  {
    var f := k as real / n as real;
    var x := Lerp(start as real, target as real, f);
    LerpBetween(start as real, target as real, f);
    if start <= target then
      TruncBetween(x, start, target);
      Trunc(x)
    else
      TruncBetween(x, target, start);
      Trunc(x)
  }

  /**
   * What `_brightness_transition(start, target)` writes into `self.brightness`,
   * frame after frame, for the `n` frames of `range(n)`.
   */
  function BrightnessWrites(start: int, target: int, n: nat): (ws: seq<int>)
    ensures |ws| == n
    ensures n > 0 ==> ws[0] == start
    ensures forall k :: 0 <= k < n ==>
      (start <= target ==> start <= ws[k] <= target) && (target <= start ==> target <= ws[k] <= start)
  {
    seq(n, k requires 0 <= k < n => BrightnessAt(start, target, n, k))
  }

  /**
   * The loop stops before the fraction reaches 1: on the way up from a
   * non-negative start the target is never written.
   */
  lemma RisingNeverReachesTarget(start: int, target: int, n: nat, k: nat)
    requires 0 <= start < target && k < n
    ensures BrightnessWrites(start, target, n)[k] < target
  {
    var f := k as real / n as real;
    FractionBelowOne(k, n);
    LerpBelow(start as real, target as real, f);
    assert BrightnessWrites(start, target, n)[k] == Trunc(Lerp(start as real, target as real, f));
  }

  lemma FractionBelowOne(k: nat, n: nat)
    requires k < n
    ensures 0.0 <= k as real / n as real < 1.0
  {
    var f := k as real / n as real;
    assert f * n as real == k as real;
    if f >= 1.0 {
      MulMono(1.0, f, n as real);
      assert false;
    }
  }

  /** Short of the end, an interpolation upward from a non-negative value stays below the target. */
  lemma LerpBelow(a: real, b: real, f: real)
    requires 0.0 <= a < b && 0.0 <= f < 1.0
    ensures 0.0 <= Lerp(a, b, f) < b
  {
    var d := b - a;
    assert a * (1.0 - f) == a - a * f;
    assert d * f == b * f - a * f;
    assert Lerp(a, b, f) == a + d * f;
    ScaleDown(d, f);
    MulStrictLeft(d, f, 1.0);
  }

  lemma MulStrictLeft(d: real, x: real, y: real)
    requires d > 0.0 && x < y
    ensures d * x < d * y
  {
    assert d * y - d * x == d * (y - x);
  }

  /**
   * With the default 17 frames, a fade from 255 down to 128 last writes 135 and
   * stays there: the brightness never settles on the value the light published.
   */
  lemma FallingStopsShort()
    ensures |BrightnessWrites(255, 128, 17)| == 17
    ensures BrightnessWrites(255, 128, 17)[16] == 135
  {
    var f := 16.0 / 17.0;
    var x := Lerp(255.0, 128.0, f);
    assert BrightnessWrites(255, 128, 17)[16] == Trunc(x);
    assert x == 2303.0 / 17.0;
    assert 135.0 <= x < 136.0;
  }

  /**
   * The transition the design describes: frames `0 ..= n`, so that the last
   * write is the target itself; a transition of no frames writes the target at once.
   */
  function SettledBrightnessWrites(start: int, target: int, n: nat): (ws: seq<int>)
    ensures |ws| == n + 1
    ensures ws[n] == target
    ensures n > 0 ==> ws[0] == start
    ensures forall k :: 0 <= k <= n ==>
      (start <= target ==> start <= ws[k] <= target) && (target <= start ==> target <= ws[k] <= start)
  {
    if n == 0 then [target]
    else
      assert Lerp(start as real, target as real, n as real / n as real) == target as real;
      BrightnessWrites(start, target, n) + [Trunc(Lerp(start as real, target as real, n as real / n as real))]
  }

  /** The colour frame `k` of `n` writes: `start.blend(target, k / n)`. */
  function ColorAt(start: Rgb, target: Rgb, n: nat, k: nat): (c: Rgb)
    requires k < n
    ensures k == 0 && AtMostOne(start) ==> c == start
    ensures InUnit(start) && InUnit(target) ==> InUnit(c)
  {
    var f := k as real / n as real;
    FractionBelowOne(k, n);
    if InUnit(start) && InUnit(target) then
      BlendIsInterpolation(start, target, f);
      Blend(start, target, f)
    else if k == 0 && AtMostOne(start) then
      BlendAtZero(start, target);
      Blend(start, target, f)
    else Blend(start, target, f)
  }

  /** What `_color_transition(start, target)` writes into `self.color`, frame after frame. */
  function ColorWrites(start: Rgb, target: Rgb, n: nat): (cs: seq<Rgb>)
    ensures |cs| == n
    ensures n > 0 && AtMostOne(start) ==> cs[0] == start
    ensures InUnit(start) && InUnit(target) ==> forall k :: 0 <= k < n ==> InUnit(cs[k])
  {
    seq(n, k requires 0 <= k < n => ColorAt(start, target, n, k))
  }

  /** A command after `json.loads`: each key may be missing (or JSON `null`). */
  datatype Command = Command(
    state: Option<string>,
    brightness: Option<int>,
    effect: Option<string>,
    color: Option<ColorDict>)

  /** `KeyError` from `Color.from_dict` on a colour without `r`, `g` or `b`. */
  datatype CommandError = KeyError

  /** The dictionary `publish_state` serializes. `effect` is `None` when the key is absent. */
  datatype Payload = Payload(state: string, brightness: int, color: ColorDict, effect: Option<string>)

  /**
   * The payload `publish_state(brightness, color)` sends: ON or OFF, the argument
   * brightness if it is truthy and the current one otherwise, the argument colour
   * if there is one and the current one otherwise, and the effect only when one is set.
   */
  function StatePayload(isOn: bool, brightness: int, color: Rgb, effect: Option<string>,
                        brightnessArg: Option<int>, colorArg: Option<Rgb>): (p: Payload)
    ensures p.state == if isOn then "ON" else "OFF"
    ensures brightnessArg.Some? && brightnessArg.value != 0 ==> p.brightness == brightnessArg.value
    ensures brightnessArg.None? || brightnessArg.value == 0 ==> p.brightness == brightness
    ensures colorArg.Some? ==> p.color == AsDict(colorArg.value)
    ensures colorArg.None? ==> p.color == AsDict(color)
    ensures p.effect.Some? <==> Given(effect)
    ensures p.effect.Some? ==> p.effect == effect
  {
    Payload(
      if isOn then "ON" else "OFF",
      if brightnessArg.Some? && brightnessArg.value != 0 then brightnessArg.value else brightness,
      AsDict(if colorArg.Some? then colorArg.value else color),
      if Given(effect) then effect else None)
  }

  /** Python truthiness of a possibly missing string: present and non-empty. */
  predicate Given(s: Option<string>)
  {
    s.Some? && s.value != ""
  }

  /** `if is_on: self.is_on = is_on == 'ON'`. */
  function NextIsOn(isOn: bool, state: Option<string>): (on: bool)
    ensures !Given(state) ==> on == isOn
    ensures Given(state) ==> (on <==> state.value == "ON")
  {
    if Given(state) then state.value == "ON" else isOn
  }

  /**
   * The effect after a command: a missing or `null` effect clears it, a listed one
   * is adopted, an unlisted one leaves the current effect in place.
   */
  function NextEffect(current: Option<string>, requested: Option<string>, possible: seq<string>): (e: Option<string>)
    ensures requested.None? ==> e.None?
    ensures requested.Some? && requested.value in possible ==> e == requested
    ensures requested.Some? && requested.value !in possible ==> e == current
  {
    match requested
    case None => None
    case Some(name) => if name in possible then requested else current
  }

  /** `if brightness:` — present and non-zero. */
  predicate BrightnessGiven(c: Command)
  {
    c.brightness.Some? && c.brightness.value != 0
  }

  /** `if color:` — present and a non-empty dictionary. */
  predicate ColorGiven(c: Command)
  {
    c.color.Some? && |c.color.value| > 0
  }

  /** A background transition task: what its loop writes, how far it got, whether it was cancelled. */
  class Task<T> {
    const writes: seq<T>
    var frame: nat
    var cancelled: bool

    constructor (writes: seq<T>)
      ensures this.writes == writes && frame == 0 && !cancelled
    {
      this.writes := writes;
      frame := 0;
      cancelled := false;
    }

    /** Still has a write to make: neither cancelled nor through its frames. */
    predicate Live()
      reads this
    {
      !cancelled && frame < |writes|
    }

    /** `task.cancel()`: the task raises `CancelledError` at its next wait and writes nothing more. */
    method Cancel()
      modifies this
      ensures cancelled && frame == old(frame)
    {
      cancelled := true;
    }
  }

  class Light {
    const possibleEffects: seq<string>
    const transitionDurationMs: int
    const frameDurationMs: int
    var isOn: bool
    var color: Rgb
    var brightness: int
    var effect: Option<string>
    var brightnessTask: Task?<int>
    var colorTask: Task?<Rgb>
    /** The state messages sent so far, oldest first. */
    var published: seq<Payload>
    /** Every brightness and colour task this light has started. */
    ghost var brightnessTasks: set<Task<int>>
    ghost var colorTasks: set<Task<Rgb>>

    /** At most one task per axis can still write: every task but the current one was cancelled. */
    ghost predicate Valid()
      reads this, brightnessTasks, colorTasks
    {
      && (brightnessTask != null ==> brightnessTask in brightnessTasks)
      && (colorTask != null ==> colorTask in colorTasks)
      && (forall t :: t in brightnessTasks && t != brightnessTask ==> t.cancelled)
      && (forall t :: t in colorTasks && t != colorTask ==> t.cancelled)
    }

    /** The initial state of `__init__`: on, `Color.rgb(1, 1, 1)`, full brightness, no effect, no task. */
    constructor (effects: seq<string> := [], transitionDurationMs: int := 500, frameDurationMs: int := 30)
      ensures Valid()
      ensures possibleEffects == effects
      ensures this.transitionDurationMs == transitionDurationMs && this.frameDurationMs == frameDurationMs
      ensures isOn && color == FromRgbArgs(1.0, 1.0, 1.0) && brightness == 255 && effect.None?
      ensures brightnessTask == null && colorTask == null && published == []
      ensures brightnessTasks == {} && colorTasks == {}
    {
      possibleEffects := effects;
      this.transitionDurationMs := transitionDurationMs;
      this.frameDurationMs := frameDurationMs;
      isOn := true;
      color := FromRgbArgs(1.0, 1.0, 1.0);
      brightness := 255;
      effect := None;
      brightnessTask := null;
      colorTask := null;
      published := [];
      brightnessTasks := {};
      colorTasks := {};
    }

    /** The number of frames every transition of this light runs. */
    function Frames(): nat
      reads this
    {
      FrameCount(transitionDurationMs, frameDurationMs)
    }

    /** The payload `publish_state(brightnessArg, colorArg)` would send now. */
    function Snapshot(brightnessArg: Option<int>, colorArg: Option<Rgb>): Payload
      reads this
    {
      StatePayload(isOn, brightness, color, effect, brightnessArg, colorArg)
    }

    /** `publish_state()`. */
    method PublishState(brightnessArg: Option<int>, colorArg: Option<Rgb>)
      modifies this
      ensures published == old(published) + [old(Snapshot(brightnessArg, colorArg))]
      ensures isOn == old(isOn) && color == old(color) && brightness == old(brightness) && effect == old(effect)
      ensures brightnessTask == old(brightnessTask) && colorTask == old(colorTask)
      ensures brightnessTasks == old(brightnessTasks) && colorTasks == old(colorTasks)
    {
      published := published + [Snapshot(brightnessArg, colorArg)];
    }

    /** `init_mqtt()`: after subscribing, the current state is published. */
    method InitMqtt()
      modifies this
      ensures published == old(published) + [old(Snapshot(None, None))]
      ensures isOn == old(isOn) && color == old(color) && brightness == old(brightness) && effect == old(effect)
      ensures brightnessTask == old(brightnessTask) && colorTask == old(colorTask)
      ensures brightnessTasks == old(brightnessTasks) && colorTasks == old(colorTasks)
    {
      PublishState(None, None);
    }

    /**
     * `start_brightness_transition(target)`: cancels the running brightness task,
     * starts one from the current brightness, and publishes the target brightness
     * with the current colour.
     */
    method StartBrightnessTransition(target: int)
      requires Valid()
      modifies this, brightnessTask
      ensures Valid()
      ensures old(brightnessTask) != null ==> old(brightnessTask).cancelled
      ensures brightnessTask != null && fresh(brightnessTask) && !brightnessTask.cancelled && brightnessTask.frame == 0
      ensures brightnessTask.writes == BrightnessWrites(old(brightness), target, Frames())
      ensures brightnessTasks == old(brightnessTasks) + {brightnessTask}
      ensures published == old(published) + [old(Snapshot(Some(target), None))]
      ensures isOn == old(isOn) && color == old(color) && brightness == old(brightness) && effect == old(effect)
      ensures colorTask == old(colorTask) && colorTasks == old(colorTasks)
    {
      if brightnessTask != null {
        brightnessTask.Cancel();
      }
      var task := new Task(BrightnessWrites(brightness, target, Frames()));
      brightnessTask := task;
      brightnessTasks := brightnessTasks + {task};
      PublishState(Some(target), None);
    }

    /**
     * `start_color_transition(target)`: cancels the running colour task, starts one
     * from the current colour, and publishes the target colour with the current brightness.
     */
    method StartColorTransition(target: Rgb)
      requires Valid()
      modifies this, colorTask
      ensures Valid()
      ensures old(colorTask) != null ==> old(colorTask).cancelled
      ensures colorTask != null && fresh(colorTask) && !colorTask.cancelled && colorTask.frame == 0
      ensures colorTask.writes == ColorWrites(old(color), target, Frames())
      ensures colorTasks == old(colorTasks) + {colorTask}
      ensures published == old(published) + [old(Snapshot(None, Some(target)))]
      ensures isOn == old(isOn) && color == old(color) && brightness == old(brightness) && effect == old(effect)
      ensures brightnessTask == old(brightnessTask) && brightnessTasks == old(brightnessTasks)
    {
      if colorTask != null {
        colorTask.Cancel();
      }
      var task := new Task(ColorWrites(color, target, Frames()));
      colorTask := task;
      colorTasks := colorTasks + {task};
      PublishState(None, Some(target));
    }

    /**
     * One iteration of `_brightness_transition`'s loop in task `t`: a live task
     * writes its next value; a cancelled or finished one writes nothing.
     */
    method BrightnessFrame(t: Task<int>)
      requires Valid() && t in brightnessTasks
      modifies this, t
      ensures Valid()
      ensures old(t.Live()) ==> brightness == t.writes[old(t.frame)] && t.frame == old(t.frame) + 1
      ensures !old(t.Live()) ==> brightness == old(brightness) && t.frame == old(t.frame)
      ensures old(t != brightnessTask) ==> brightness == old(brightness)
      ensures t.cancelled == old(t.cancelled)
      ensures isOn == old(isOn) && color == old(color) && effect == old(effect) && published == old(published)
      ensures brightnessTask == old(brightnessTask) && colorTask == old(colorTask)
      ensures brightnessTasks == old(brightnessTasks) && colorTasks == old(colorTasks)
    {
      if t.Live() {
        brightness := t.writes[t.frame];
        t.frame := t.frame + 1;
      }
    }

    /** One iteration of `_color_transition`'s loop in task `t`. */
    method ColorFrame(t: Task<Rgb>)
      requires Valid() && t in colorTasks
      modifies this, t
      ensures Valid()
      ensures old(t.Live()) ==> color == t.writes[old(t.frame)] && t.frame == old(t.frame) + 1
      ensures !old(t.Live()) ==> color == old(color) && t.frame == old(t.frame)
      ensures old(t != colorTask) ==> color == old(color)
      ensures t.cancelled == old(t.cancelled)
      ensures isOn == old(isOn) && brightness == old(brightness) && effect == old(effect) && published == old(published)
      ensures brightnessTask == old(brightnessTask) && colorTask == old(colorTask)
      ensures brightnessTasks == old(brightnessTasks) && colorTasks == old(colorTasks)
    {
      if t.Live() {
        color := t.writes[t.frame];
        t.frame := t.frame + 1;
      }
    }

    /**
     * The current brightness task left to run without interruption: it writes
     * every value in turn and the brightness ends at its last write.
     */
    method RunBrightnessTransition() returns (written: seq<int>)
      requires Valid() && brightnessTask != null && brightnessTask.Live() && brightnessTask.frame == 0
      modifies this, brightnessTask
      ensures Valid()
      ensures brightnessTask == old(brightnessTask) && !old(brightnessTask).Live()
      ensures written == old(brightnessTask).writes && |written| >= 1
      ensures brightness == written[|written| - 1]
      ensures isOn == old(isOn) && color == old(color) && effect == old(effect) && published == old(published)
    {
      var t := brightnessTask;
      written := [];
      while t.Live()
        invariant Valid() && t == brightnessTask && !t.cancelled
        invariant t.frame <= |t.writes|
        invariant written == t.writes[..t.frame]
        invariant t.frame > 0 ==> brightness == t.writes[t.frame - 1]
        invariant isOn == old(isOn) && color == old(color) && effect == old(effect) && published == old(published)
        decreases |t.writes| - t.frame
      {
        BrightnessFrame(t);
        written := written + [brightness];
      }
      assert t.writes[..t.frame] == t.writes;
    }

    /**
     * The coroutines `_handle_command` awaits: the brightness transition first,
     * then the colour transition, each started only when requested. Each
     * publishes before the other one starts, so each payload shows the other
     * axis as it was.
     */
    method StartTransitions(bright: Option<int>, target: Option<Rgb>)
      requires Valid()
      modifies this, brightnessTask, colorTask
      ensures Valid()
      ensures isOn == old(isOn) && effect == old(effect) && brightness == old(brightness) && color == old(color)
      ensures bright.None? ==> brightnessTask == old(brightnessTask) && brightnessTasks == old(brightnessTasks)
      ensures bright.Some? ==> brightnessTask != null && fresh(brightnessTask)
      ensures bright.Some? ==> brightnessTask.writes == BrightnessWrites(old(brightness), bright.value, Frames())
      ensures bright.Some? && old(brightnessTask) != null ==> old(brightnessTask).cancelled
      ensures target.None? ==> colorTask == old(colorTask) && colorTasks == old(colorTasks)
      ensures target.Some? ==> colorTask != null && fresh(colorTask)
      ensures target.Some? ==> colorTask.writes == ColorWrites(old(color), target.value, Frames())
      ensures target.Some? && old(colorTask) != null ==> old(colorTask).cancelled
      ensures published == old(published)
        + (if bright.Some? then [StatePayload(isOn, brightness, color, effect, bright, None)] else [])
        + (if target.Some? then [StatePayload(isOn, brightness, color, effect, None, target)] else [])
    {
      if bright.Some? {
        StartBrightnessTransition(bright.value);
      }
      if target.Some? {
        StartColorTransition(target.value);
      }
    }

    /** `if is_on: ...` and the effect selection, the first half of `_handle_command`. */
    method ApplyStateAndEffect(m: Command)
      modifies this
      ensures isOn == NextIsOn(old(isOn), m.state)
      ensures effect == NextEffect(old(effect), m.effect, possibleEffects)
      ensures brightness == old(brightness) && color == old(color) && published == old(published)
      ensures brightnessTask == old(brightnessTask) && colorTask == old(colorTask)
      ensures brightnessTasks == old(brightnessTasks) && colorTasks == old(colorTasks)
    {
      if Given(m.state) {
        isOn := m.state.value == "ON";
      }
      if m.effect.None? {
        effect := None;
      } else if m.effect.value in possibleEffects {
        effect := m.effect;
      }
    }

    /**
     * `_handle_command(raw_message)`, with `json.loads` already applied: `None`
     * stands for a payload that failed to parse, which changes and publishes nothing.
     * Otherwise `state` and `effect` are applied, then a truthy `brightness` starts a
     * brightness transition and a truthy `color` a colour transition, brightness
     * first. A colour without all of `r`, `g`, `b` raises `KeyError` after `state`
     * and `effect` were applied and before either transition starts.
     */
    method HandleCommand(msg: Option<Command>) returns (r: Result<(), CommandError>)
      requires Valid()
      modifies this, brightnessTask, colorTask
      ensures Valid()
      ensures msg.None? ==> r.Ok? && isOn == old(isOn) && effect == old(effect) && published == old(published)
      ensures msg.None? ==> brightnessTask == old(brightnessTask) && colorTask == old(colorTask)
      ensures msg.Some? ==> isOn == NextIsOn(old(isOn), msg.value.state)
      ensures msg.Some? ==> effect == NextEffect(old(effect), msg.value.effect, possibleEffects)
      ensures brightness == old(brightness) && color == old(color)
      ensures r.Err? <==> msg.Some? && ColorGiven(msg.value) && FromDict(msg.value.color.value).None?
      ensures r.Err? ==> brightnessTask == old(brightnessTask) && colorTask == old(colorTask) && published == old(published)
      ensures r.Ok? && msg.Some? ==> (BrightnessGiven(msg.value) <==> brightnessTask != old(brightnessTask))
      ensures r.Ok? && msg.Some? ==> (ColorGiven(msg.value) <==> colorTask != old(colorTask))
      ensures r.Ok? && msg.Some? && BrightnessGiven(msg.value) ==>
        (brightnessTask != null
         && brightnessTask.writes == BrightnessWrites(old(brightness), msg.value.brightness.value, Frames()))
      ensures r.Ok? && msg.Some? && ColorGiven(msg.value) ==>
        (colorTask != null
         && colorTask.writes == ColorWrites(old(color), FromDict(msg.value.color.value).value, Frames()))
      ensures r.Ok? && msg.Some? ==>
        (published == old(published)
          + (if BrightnessGiven(msg.value) then [StatePayload(isOn, old(brightness), old(color), effect, msg.value.brightness, None)] else [])
          + (if ColorGiven(msg.value) then [StatePayload(isOn, old(brightness), old(color), effect, None, FromDict(msg.value.color.value))] else []))
      ensures brightnessTask != old(brightnessTask) && old(brightnessTask) != null ==> old(brightnessTask).cancelled
      ensures colorTask != old(colorTask) && old(colorTask) != null ==> old(colorTask).cancelled
    {
      if msg.None? {
        return Ok(());
      }
      var m := msg.value;
      ApplyStateAndEffect(m);
      var target: Option<Rgb> := None;
      if ColorGiven(m) {
        target := FromDict(m.color.value);
        if target.None? {
          return Err(KeyError);
        }
      }
      StartTransitions(if BrightnessGiven(m) then m.brightness else None, target);
      return Ok(());
    }
  }
}
