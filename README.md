# String lights: effect codec, light controller, colours and sorting animations

A Dafny model of the core of a Home Assistant string-lights controller. The
system has an offline side that renders effects into files and an on-device
side (a Pico board) that plays those files back and answers MQTT light
commands. The model covers six source files:

- **Effect codec.** `effects/effect_serializer.py` turns a frame-by-light
  matrix of packed colours into three things:
  - a colour table;
  - a matrix of table indices;
  - a text file. Its first line is the metadata JSON. Each further line is
    one group of identical consecutive frames (`<n>r[...]`). Each frame is
    written as runs of identical indices (`<n>x<v>`).

  `pico/effect_reader.py` reads the metadata line back. It streams the data
  lines as frames, in batches, and rewinds at end of file.
  - Modules: `Runs`, `EffectSerializer`, `EffectReader`, `Storage`, `Text`.
  - `EffectFormat` is a decoder for the serializer's format, which the
    serializer has no counterpart for. The round trip is proved against it.
  - The reader is a state machine with one `Transition` per step of the
    generator's body. The `FrameGenerator` class steps it in place.
- **Light controller.** `Light.py`, modelled by the `LightControl` module:
  - the initial state;
  - command handling (`is_on`, `effect`, starting transitions);
  - the values each brightness or colour transition task writes, frame by
    frame;
  - cancelling the previous task on the same axis;
  - the `publish_state` payloads.
- **Colours.** `pico/Color.py` and `effects/color.py` share their channel
  arithmetic, which is modelled once in `Channels`: capped scaling, clamped
  addition, blend, 24-bit packing and the `#hex` string. The two `Color`
  classes (`PicoColor`, `EffectsColor`) keep mutable fields. Their `rgb`
  factories differ.
- **Sorting animations.** `effects/interactiveSorting.py` is modelled by
  `InteractiveSorting`. Heap sort, merge sort and bubble sort run in place on
  an `array<int>`.
  - Every `onUpdate()` call of heap sort and bubble sort is recorded as the
    swap it follows.
  - Every `onListUpdate()` call of merge sort is counted.
  - Each sort is proved to leave the array ascending and a permutation of
    its input. The swap logs replay the input into the result.

## Model

| member | source | states |
|---|---|---|
| Runs.ChangePoints | effects/effect_serializer.py:17 | exactly the indices whose element differs from the one before, ascending |
| Runs.Groups | effects/effect_serializer.py:19-23 | one run per pair of consecutive bounds, holding its length and the element at its start |
| Runs.Bounds | effects/effect_serializer.py:19-20 | group starts then the end: ascending, from 0 to the length |
| Runs.SegmentsConstant | effects/effect_serializer.py:17-20 | no element changes between two consecutive bounds |
| Runs.NeighboursDiffer | effects/effect_serializer.py:17-22 | neighbouring runs have different values |
| Runs.PositiveCounts | effects/effect_serializer.py:23 | every count is at least 1 |
| Runs.GroupsExpand | effects/effect_serializer.py:19-23 | repeating each run's value by its count gives back the slice the bounds cover |
| Runs.ExpandLength | effects/effect_serializer.py:23 | the expansion is as long as the counts add up to |
| Runs.Collapse | effects/effect_serializer.py:16-25 | fails exactly on empty input (`data[group_starts]` raises `IndexError`); otherwise its first run starts with the first element |
| Runs.CollapseIsRunEncoding | effects/effect_serializer.py:5-25 | both collapse helpers fail exactly on empty input; otherwise counts are at least 1, sum to the length, neighbours differ and expansion gives back the input |
| Runs.CanonicalUnique | effects/effect_serializer.py:5-25 | a run-length encoding with positive counts and differing neighbours is determined by what it expands to |
| Runs.LeadingRun | effects/effect_serializer.py:17-23 | the first run covers exactly the first `count` elements |
| EffectSerializer.Insert | effects/effect_serializer.py:39 | adding a value to an ascending table keeps it strictly ascending and adds only that value |
| EffectSerializer.Unique | effects/effect_serializer.py:39 | `np.unique`: strictly ascending, holding exactly the values of the input |
| EffectSerializer.AscendingUnique | effects/effect_serializer.py:39 | only one strictly ascending sequence holds a given set of values |
| EffectSerializer.IndexOf | effects/effect_serializer.py:39 | the position found holds the value |
| EffectSerializer.IndexOfUnique | effects/effect_serializer.py:39-40 | in an ascending table a value's position is the only one holding it |
| EffectSerializer.CellsHold | effects/effect_serializer.py:39 | every cell of the matrix is among its flattened cells |
| EffectSerializer.Table | effects/effect_serializer.py:39-42 | the colour table is strictly ascending, holds every cell and nothing else |
| EffectSerializer.IndexRow | effects/effect_serializer.py:39-40 | one index per light, each below the table length and naming that light's colour |
| EffectSerializer.Indices | effects/effect_serializer.py:39-40 | `color_indices` has the matrix's shape, and `table[index] == cell` for every cell |
| EffectSerializer.TokenFree | effects/effect_serializer.py:27-33 | a token `_serialize_value` writes holds no comma, `r` or bracket |
| EffectSerializer.Tokens | effects/effect_serializer.py:36 | one token per run, token `k` being `_serialize_value` of run `k` |
| EffectSerializer.RowRuns | effects/effect_serializer.py:46 | defined exactly when every representative frame has a light; counts kept, each frame collapsed into runs |
| EffectSerializer.Encoding | effects/effect_serializer.py:44-46 | the groups the writing loop walks: none for an empty matrix; each has a count of at least 1 and a row of runs that expands to a frame of the matrix |
| EffectSerializer.Lines | effects/effect_serializer.py:50-54 | one line per group |
| EffectSerializer.LinesAt | effects/effect_serializer.py:50-54 | line `k` is the bare row or `<count>r[<row>]` of group `k` |
| EffectSerializer.GroupsDefined | effects/effect_serializer.py:39-46 | the encoding succeeds exactly when the matrix has a frame and a light; otherwise numpy raises `IndexError` |
| EffectSerializer.GroupInMatrix | effects/effect_serializer.py:11 | every representative frame is a frame of the matrix |
| EffectSerializer.LineCount | effects/effect_serializer.py:44-54 | one body line per group of identical frames |
| EffectSerializer.Serialize | effects/effect_serializer.py:38-54 | `colors` set in the caller's dict with all other keys kept; on success the metadata line then the group lines appended; on `IndexError` nothing written |
| EffectSerializer.WriteGroups | effects/effect_serializer.py:50-54 | the loop appends exactly the group lines, in order |
| EffectSerializer.FormatGroup | effects/effect_serializer.py:51-54 | the text written for group `k` is line `k` |
| Storage.JsonDict.Set | effects/effect_serializer.py:42 | `d[key] = value` changes that key only |
| Storage.TextFile.WriteLine | effects/effect_serializer.py:48 | writing a line appends it |
| EffectFormat.ParseNat | effects/effect_serializer.py:31 | a non-empty digit string is accepted, anything else rejected |
| EffectFormat.ParseNatOfDecimal | effects/effect_serializer.py:31-33 | `str(n)` parses back to `n` |
| Text.DecimalDigits | effects/effect_serializer.py:31 | `str(n)` of a natural is a non-empty string of digits |
| EffectFormat.TokenRoundTrip | effects/effect_serializer.py:27-33 | a bare value and `<count>x<value>` both parse back to their run |
| EffectFormat.TokensRoundTrip | effects/effect_serializer.py:35-36 | the tokens of a run list parse back to it |
| EffectFormat.RowShape | effects/effect_serializer.py:35-36 | splitting a row at commas gives its tokens, one per run, and it holds one comma fewer than runs |
| EffectFormat.RowRoundTrip | effects/effect_serializer.py:35-36 | a row parses back to its runs and holds no `r` or bracket |
| EffectFormat.LineRoundTrip | effects/effect_serializer.py:50-54 | every written line parses back to its group: bare for count 1, `<count>r[...]` otherwise |
| EffectFormat.ResolveRow | effects/effect_serializer.py:39-40 | a row of indices resolves exactly when every index is inside the table, to the colours they name |
| EffectFormat.Resolve | effects/effect_serializer.py:39-40 | index frames resolve frame by frame |
| EffectFormat.DecodeGroups | effects/effect_serializer.py:44-54 | decoding the lines of canonical frame groups gives back every frame of every group |
| EffectFormat.DecodeBodyCons | effects/effect_serializer.py:50-54 | decoding is line by line, in order |
| EffectFormat.ResolveIndices | effects/effect_serializer.py:39-40 | indices that name their cells resolve back to the matrix |
| EffectFormat.RoundTrip | effects/effect_serializer.py:38-54 | for every non-empty rectangular matrix, the body decodes to `color_indices` exactly, and the indices resolve to the matrix through the table |
| EffectFormat.TwoRepeatedFrames | effects/effect_serializer.py:54 | `2r[3x0]` is two frames of three times index 0 |
| EffectFormat.TwoRedFrames | effects/effect_serializer.py:39-42 | index 0 of `[red, green]` is red |
| Text.Numeral | effects/color.py:84 | a numeral is non-empty digits with no leading zero, and it is `"0"` exactly for 0 |
| Text.ParseNumeralOfNumeral | effects/effect_serializer.py:31 | a numeral parses back to its number |
| Text.PyInt | pico/effect_reader.py:23 | `int(s)` accepts only strings holding a digit, and reads a plain digit string as its decimal value |
| Text.PyIntOfDecimal | pico/effect_reader.py:23 | `int(str(n)) == n` |
| Text.PyIntRejects | pico/effect_reader.py:23 | `int()` raises on any string with a character other than a digit, sign or whitespace |
| Text.StripLeft | pico/effect_reader.py:23 | a suffix of the input that does not start with whitespace |
| Text.StripRight | pico/effect_reader.py:23 | a prefix of the input that does not end with whitespace |
| Text.Split | pico/effect_reader.py:23 | `str.split` yields at least one part |
| Text.Join | effects/effect_serializer.py:36 | `','.join` adds no character but the separator: a character absent from every part is absent from the result |
| Text.SplitJoin | effects/effect_serializer.py:36 | splitting a join of separator-free parts gives the parts back |
| Text.JoinSplit | effects/effect_serializer.py:36 | joining a split gives the string back |
| Text.SplitCount | pico/effect_reader.py:23 | a split has one more part than the string has separators |
| Text.JoinCount | effects/effect_serializer.py:36 | a join of `k` separator-free parts holds `k - 1` separators |
| EffectReader.Kept | pico/effect_reader.py:23 | `if i < light_count` keeps `min(light_count, tokens)` tokens, none for a non-positive count |
| EffectReader.ParsePrefix | pico/effect_reader.py:23 | defined exactly when `int()` accepts every kept token, and then holds their values in order |
| EffectReader.ParseFrame | pico/effect_reader.py:23 | a line's frame is the `int()` of its first `light_count` comma-separated tokens, or `ValueError` if one is rejected |
| EffectReader.RunTokenNotInt | pico/effect_reader.py:23 | `int()` rejects every `<count>x<index>` token, with or without the line terminator |
| EffectReader.RowLineParts | pico/effect_reader.py:22-23 | the comma-separated parts of a bare row line are its tokens, the last carrying the terminator |
| EffectReader.FrameRejected | pico/effect_reader.py:23 | one kept token that `int()` rejects makes the whole line unreadable |
| EffectReader.PartRejected | pico/effect_reader.py:23 | a `<n>x<v>` part of a row line is rejected |
| EffectReader.RunTokenRejected | pico/effect_reader.py:23 | a serializer row line with a `<n>x<v>` token among the kept tokens makes the reader raise |
| EffectReader.RepeatLineRejected | pico/effect_reader.py:23 | every `<n>r[...]` line makes the reader raise once a token is kept |
| EffectReader.ExampleLines | effects/effect_serializer.py:50-54 | the serializer writes `2r[3x0]` and `3x0` for three lights of index 0 |
| EffectReader.RepeatedFrameLineRejected | pico/effect_reader.py:23 | the line `2r[3x0]` raises `ValueError` |
| EffectReader.RepeatedIndexLineRejected | pico/effect_reader.py:23 | the line `3x0` raises `ValueError` |
| EffectReader.CountOf | pico/effect_reader.py:23 | `i < self.light_count` compares only for a number or a bool (as 0 or 1); anything else is `TypeError` |
| EffectReader.LineFrame | pico/effect_reader.py:22-23 | with a comparable count, a line's frame exists exactly when `int()` accepts every kept token, and has one value per kept token; a rejected token is `ValueError` naming that line; an incomparable count is `TypeError` |
| EffectReader.ConfigOf | pico/effect_reader.py:16-23 | the generator sees the metadata line if there is one, then the frame or error of each further line |
| EffectReader.Released | pico/effect_reader.py:25-27 | the frames released in full batches leave fewer than a batch behind |
| EffectReader.FramesOf | pico/effect_reader.py:22-23 | one frame per data line |
| EffectReader.Drain | pico/effect_reader.py:26 | a released batch is handed out one frame per step |
| EffectReader.ReadTo | pico/effect_reader.py:21-27 | reading lines `p..q` hands out every frame in file order in whole batches, and keeps the unfinished batch |
| EffectReader.ReadCompleting | pico/effect_reader.py:25-27 | a line that fills the batch releases it at once |
| EffectReader.ReadFilling | pico/effect_reader.py:22-25 | a line that does not fill the batch is kept |
| EffectReader.ReleaseLine | pico/effect_reader.py:25-27 | the full batch is handed out before the next line is read |
| EffectReader.KeepLine | pico/effect_reader.py:23-25 | a frame that leaves the batch short is appended |
| EffectReader.ReadNothing | pico/effect_reader.py:22 | with no line left, the partial batch is all there is |
| EffectReader.EndOfFile | pico/effect_reader.py:29-30 | at end of file the partial batch is handed out, then the file is rewound |
| EffectReader.DrainAtEof | pico/effect_reader.py:29 | the last partial batch is handed out one frame per step |
| EffectReader.OnePass | pico/effect_reader.py:18-30 | one pass hands out every data frame once, in file order, for every batch size, and ends back at the start |
| EffectReader.PassFrom | pico/effect_reader.py:18-30 | reading up to end of file, then the last batch and the rewind, make one whole pass |
| EffectReader.Forever | pico/effect_reader.py:18-30 | `k` passes hand out the data frames `k` times over: the generator never ends on its own |
| EffectReader.Repeatedly | pico/effect_reader.py:18-30 | a pass that returns to the start repeats |
| EffectReader.FailsAt | pico/effect_reader.py:23 | an unreadable line ends the generator with its exception, after the batches released before it; the unfinished batch is lost |
| EffectReader.StaysExhausted | pico/effect_reader.py:16-30 | after the exception, every `next()` raises `StopIteration` |
| EffectReader.NoDataNoFrames | pico/effect_reader.py:18-30 | a file with only its metadata line never yields a frame |
| EffectReader.Transition | pico/effect_reader.py:18-30 | one step of the generator body shows at most one event; what a run of steps yields, raises and rewinds is stated by `ReadTo`, `OnePass`, `Forever` and `FailsAt` |
| EffectReader.StepBounded | pico/effect_reader.py:21-29 | each step shows at most one event, and the batch buffers never exceed one batch |
| EffectReader.ReadMetadata | pico/effect_reader.py:8-14 | the first line's JSON object must have `frame_delay_ms` and `light_count`, which are kept |
| EffectReader.ReadsSerializedMetadata | pico/effect_reader.py:10-14 | the metadata line `serialize` writes is read back, when `loads` inverts `dumps` |
| EffectReader.EffectReader.constructor | pico/effect_reader.py:5-14 | the fields are stored as given |
| EffectReader.EffectReader.Open | pico/effect_reader.py:5-14 | opening succeeds exactly when the metadata can be read, keeping its two values; otherwise the matching exception |
| EffectReader.EffectReader.ReadFrames | pico/effect_reader.py:16-17 | a new generator over the current file, not started |
| EffectReader.FrameGenerator.constructor | pico/effect_reader.py:16-17 | a generator starts before the metadata line |
| EffectReader.FrameGenerator.Advance | pico/effect_reader.py:18-30 | one step of the body changes the state as `Transition` does, and shows its events |
| Channels.Trunc | pico/Color.py:42 | `int()` on a float truncates toward zero |
| Channels.Cap | effects/color.py:46-48 | the factor applied is at most 1 and at most the given one, and a factor up to 1 is kept; the same cap is at pico/Color.py:56-57, and it clamps each channel sum at effects/color.py:67-74 |
| Channels.Scaled | pico/Color.py:55-75 | a factor of 1 or more leaves a colour unchanged (also effects/color.py:46-60) |
| Channels.ScaledInUnit | effects/color.py:46-54 | a non-negative factor keeps channels in [0, 1] |
| Channels.ScaledNegative | pico/Color.py:55-75 | the factor is not bounded below: a negative one gives negative channels, and so does a blend fraction above 1 |
| Channels.Sum | pico/Color.py:77-109 | each channel is the sum, clamped above at 1 only (also effects/color.py:62-81) |
| Channels.Blend | effects/color.py:106-107 | `self * (1 - f) + other * f` never has a channel above 1, for any fraction (also pico/Color.py:136-137) |
| Channels.BlendAtZero | pico/Color.py:136-137 | `blend(o, 0) == self` for channels at most 1 |
| Channels.BlendAtOne | effects/color.py:106-107 | `blend(o, 1) == o` for channels at most 1 |
| Channels.BlendIsInterpolation | pico/Color.py:136-137 | between colours in [0, 1] and for a fraction in [0, 1], a blend is the exact linear interpolation and stays in [0, 1] |
| Channels.BitOr | pico/Color.py:53 | Python's `|` on non-negative integers is at least each operand and at most their sum |
| Channels.OrDisjoint | pico/Color.py:53 | OR of a multiple of `2^k` with a value below `2^k` is their sum |
| Channels.OrOfBytes | effects/color.py:44 | the shifted bytes combine by OR as by addition |
| Channels.ByteRange | pico/Color.py:42 | a channel in [0, 1] becomes a byte |
| Channels.Bytes | pico/Color.py:41-42 | `to_tuple()` of channels in [0, 1] is three bytes |
| Channels.Packed | effects/color.py:43-44 | `int(c)` of channels in [0, 1] is below `2^24` and equals the bytes' weighted sum (also pico/Color.py:52-53) |
| Channels.PackedBytes | pico/Color.py:41-53 | for channels in [0, 1], `int(c)` is below `2^24` and its bytes are `to_tuple()`, high to low (also effects/color.py:43-44) |
| Channels.Str | pico/Color.py:114-115 | `str(c)` starts with `#` and has at least one digit |
| Channels.StrIsHex | effects/color.py:83-84 | `str(c)` is `#` and the packed value in lowercase hex, with no zero padding and at most six digits (also pico/Color.py:114-115) |
| Channels.HexLength | effects/color.py:84 | a number below `16^k` has at most `k` hex digits |
| Channels.PureBlueStr | effects/color.py:83-84 | pure blue prints as `#ff` |
| PicoColor.FromRgbArgs | pico/Color.py:17-25 | `rgb` always divides each argument by 255 |
| PicoColor.FromDict | pico/Color.py:37-39 | `from_dict` succeeds exactly when `r`, `g`, `b` are all present |
| PicoColor.AsDict | pico/Color.py:32-35 | `dict(c)` has exactly the keys `r`, `g`, `b`, and `from_dict` of it gives back `c` |
| PicoColor.DictRoundTrip | pico/Color.py:32-39 | `dict(Color.from_dict(d))` gives back `d`'s three entries |
| PicoColor.UnitArgumentsAreNearBlack | pico/Color.py:17-24 | `Color.rgb(1, 1, 1)`, the light's initial colour, is 1/255 per channel, the byte triple (1, 1, 1) |
| PicoColor.Equal | pico/Color.py:111-112 | equal exactly when all three channels are |
| PicoColor.Color.constructor | pico/Color.py:27-30 | the arguments are stored unchanged, (1, 1, 1) by default |
| PicoColor.Color.FromRgb | pico/Color.py:16-25 | a new colour holding the arguments divided by 255 |
| PicoColor.Color.Copy | pico/Color.py:47-50 | a new object with the same channels |
| PicoColor.Color.IMul | pico/Color.py:55-63 | `*=` scales in place with the factor capped at 1 |
| PicoColor.Color.Mul | pico/Color.py:65-75 | `*` returns a new scaled colour and leaves `self` as it was |
| PicoColor.Color.IAdd | pico/Color.py:77-91 | `+=` adds in place, clamping each channel above at 1 |
| PicoColor.Color.Add | pico/Color.py:93-109 | `+` returns a new clamped sum |
| PicoColor.Color.BlendWith | pico/Color.py:136-137 | a new colour, `self * (1 - f) + other * f` |
| EffectsColor.TupleGreater | effects/color.py:27 | Python's tuple `>`: no tuple is greater than itself, and the empty tuple is greater than none |
| EffectsColor.Divides | effects/color.py:27 | `(r, g, b) > (1, 1, 1)` holds exactly when the first channel that differs from 1 is above it |
| EffectsColor.RgbExamples | effects/color.py:23-33 | `(0.5, 200, 200)` is kept, `(1, 2, 0)` divided, `(1, 1, 1)` kept |
| EffectsColor.FromRgbArgsInUnit | effects/color.py:27-32 | divided 0..255 arguments give channels in [0, 1] |
| EffectsColor.Color.constructor | effects/color.py:5-9 | the fields are stored as given, 0 by default |
| EffectsColor.Color.FromRgb | effects/color.py:23-33 | a new colour by the range heuristic |
| EffectsColor.Color.Copy | effects/color.py:38-41 | a new object with the same channels |
| EffectsColor.Color.IMul | effects/color.py:46-54 | `*=` scales in place with the factor capped at 1 |
| EffectsColor.Color.Mul | effects/color.py:57-60 | a copy, then `*=` on the copy; the original is unchanged |
| EffectsColor.Color.IAdd | effects/color.py:62-76 | `+=` adds in place, clamping each channel above at 1 |
| EffectsColor.Color.Add | effects/color.py:78-81 | a copy, then `+=` on the copy; neither operand changes |
| EffectsColor.Color.BlendWith | effects/color.py:106-107 | a new colour, `self * (1 - f) + other * f` |
| LightControl.Ceil | Light.py:81 | `math.ceil` gives the least integer not below its argument |
| LightControl.FrameCount | Light.py:81-82 | for positive durations, `N` frames of `frame_ms` are the fewest that cover the duration; a zero frame length writes nothing |
| LightControl.DefaultFrameCount | Light.py:23-24 | the default 500 ms in 30 ms frames is 17 frames |
| LightControl.Lerp | Light.py:95 | the interpolation is the start at fraction 0 and the target at fraction 1 |
| LightControl.LerpBetween | Light.py:95 | an interpolation at a fraction in [0, 1] lies between its end points |
| LightControl.BrightnessAt | Light.py:93-95 | frame `k`'s value lies between start and target, and frame 0 writes the start |
| LightControl.BrightnessWrites | Light.py:89-97 | exactly `N` values; the first is the start, and all lie between start and target |
| LightControl.RisingNeverReachesTarget | Light.py:92-95 | on the way up from a non-negative start, no frame writes the target |
| LightControl.FractionBelowOne | Light.py:93 | `frame / totalFrames` stays below 1 |
| LightControl.LerpBelow | Light.py:95 | short of the end, a rising interpolation stays below the target |
| LightControl.FallingStopsShort | Light.py:89-97 | a 17-frame fade from 255 to 128 last writes 135 |
| LightControl.SettledBrightnessWrites | Light.py:89-97 | the inclusive transition ends on its target, its other values lying between start and target |
| LightControl.ColorAt | Light.py:83 | frame 0 writes the start colour, and colours in [0, 1] stay there |
| LightControl.ColorWrites | Light.py:79-84 | exactly `N` colours, starting at the start colour and staying in [0, 1] |
| LightControl.StatePayload | Light.py:126-134 | ON/OFF from `is_on`; the brightness argument if truthy, else the current one; the colour argument if given, else the current colour; `effect` only when set |
| LightControl.NextIsOn | Light.py:145-151 | a present non-empty `state` sets `is_on` to `state == "ON"`; otherwise it is kept |
| LightControl.NextEffect | Light.py:147-158 | a missing or null effect clears it, a listed one is adopted, an unlisted one is ignored |
| LightControl.Task.constructor | Light.py:106-111 | a new task writes the given values from frame 0 and is not cancelled |
| LightControl.Task.Cancel | Light.py:103-104 | cancelling marks the task and keeps its progress |
| LightControl.Light.constructor | Light.py:40-48 | on, `Color.rgb(1, 1, 1)`, brightness 255, no effect, no task, nothing published |
| LightControl.Light.PublishState | Light.py:126-136 | appends the payload of the current state and arguments, and changes nothing else |
| LightControl.Light.InitMqtt | Light.py:70-73 | publishes the current state once |
| LightControl.Light.StartBrightnessTransition | Light.py:102-112 | cancels the running brightness task, starts one from the current brightness, and publishes the target with the current colour |
| LightControl.Light.StartColorTransition | Light.py:114-124 | cancels the running colour task, starts one from the current colour, and publishes the target colour with the current brightness |
| LightControl.Light.BrightnessFrame | Light.py:92-97 | a live task writes its next value; a cancelled or finished one writes nothing |
| LightControl.Light.ColorFrame | Light.py:82-84 | the same for colours |
| LightControl.Light.RunBrightnessTransition | Light.py:89-100 | an uninterrupted task writes every value in turn and leaves its last one |
| LightControl.Light.StartTransitions | Light.py:160-172 | starts the requested transitions, brightness first, each publishing before the other starts |
| LightControl.Light.ApplyStateAndEffect | Light.py:145-158 | `is_on` and `effect` are updated as `NextIsOn` and `NextEffect` say, and nothing else changes |
| LightControl.Light.HandleCommand | Light.py:138-172 | an unparsable payload changes and publishes nothing; otherwise `state` and `effect` are applied; a truthy brightness or colour starts its transition; a colour missing a key raises `KeyError` before either transition starts; at most one live task per axis |
| InteractiveSorting.Swap | effects/interactiveSorting.py:14 | the two positions exchange their elements and every other position keeps its own |
| InteractiveSorting.SwapPermutes | effects/interactiveSorting.py:14 | a swap permutes |
| InteractiveSorting.Replay | effects/interactiveSorting.py:14-15 | replaying swaps keeps the length |
| InteractiveSorting.ReplayPermutes | effects/interactiveSorting.py:14-15 | replaying a swap log only permutes |
| InteractiveSorting.ReplayAppend | effects/interactiveSorting.py:21-27 | replaying two logs in turn is replaying their concatenation |
| InteractiveSorting.ReplayOutside | effects/interactiveSorting.py:2-17 | swaps below `n` leave the list from `n` on alone |
| InteractiveSorting.SiftRepairs | effects/interactiveSorting.py:7-14 | swapping with the larger child moves the heap defect one level down |
| InteractiveSorting.SiftDone | effects/interactiveSorting.py:13 | a parent at least its children completes the heap |
| InteractiveSorting.SwapThen | effects/interactiveSorting.py:13-17 | one swap of a parent with its larger child, then the recursive call's swaps |
| InteractiveSorting.Heapify | effects/interactiveSorting.py:2-17 | swaps only inside `arr[..n]`, only a parent with a strictly larger child, and leaves a max-heap from `lo` on |
| InteractiveSorting.RootIsMax | effects/interactiveSorting.py:24-25 | the root of a max-heap is its largest element |
| InteractiveSorting.ExtractStep | effects/interactiveSorting.py:24-25 | moving the root to the end of the heap extends the sorted tail by one |
| InteractiveSorting.RepairKeepsSettled | effects/interactiveSorting.py:27 | repairing the heap below `i` keeps the sorted tail |
| InteractiveSorting.BuildHeap | effects/interactiveSorting.py:19-22 | the first loop leaves a max-heap |
| InteractiveSorting.HeapSort | effects/interactiveSorting.py:1-27 | ascending and a permutation; one log entry per `onUpdate()` call, replaying the input into the result |
| InteractiveSorting.ReplayOne | effects/interactiveSorting.py:80 | a one-swap log is that swap |
| InteractiveSorting.BubbleSwapsAppend | effects/interactiveSorting.py:77-81 | logs of out-of-order swaps concatenate |
| InteractiveSorting.BubbleSwapsSnoc | effects/interactiveSorting.py:79-81 | one more out-of-order swap extends such a log |
| InteractiveSorting.Carry | effects/interactiveSorting.py:79-80 | the inner loop carries the prefix maximum along |
| InteractiveSorting.SettledGrows | effects/interactiveSorting.py:77-78 | a maximum at the end of the prefix joins the sorted tail |
| InteractiveSorting.SettledSorted | effects/interactiveSorting.py:77 | a sorted tail from 0 or 1 on is the whole list sorted |
| InteractiveSorting.BubblePass | effects/interactiveSorting.py:78-81 | one pass swaps only strictly out-of-order neighbours below `m`, and carries the maximum to `m - 1` |
| InteractiveSorting.BubbleSort | effects/interactiveSorting.py:74-81 | ascending and a permutation; one log entry per `onUpdate()`, each a swap of strictly out-of-order neighbours |
| InteractiveSorting.MergeFrom | effects/interactiveSorting.py:47-72 | the merge from cursors `i`, `j` holds what is left of both lists |
| InteractiveSorting.MergePermutes | effects/interactiveSorting.py:47-72 | the merge holds exactly the remaining elements of both lists |
| InteractiveSorting.MergeSorts | effects/interactiveSorting.py:47-59 | merging ascending lists gives an ascending list, taking the left head on a tie |
| InteractiveSorting.MergeSortedSorts | effects/interactiveSorting.py:30-72 | `mergeSort`'s result is ascending and a permutation |
| InteractiveSorting.MergeLeftover | effects/interactiveSorting.py:61-72 | once one half is used up, the rest of the merge is the rest of the other |
| InteractiveSorting.CopyRest | effects/interactiveSorting.py:62-72 | copies what is left of one half into the next slots, one call per write, and touches nothing else |
| InteractiveSorting.MergeHeads | effects/interactiveSorting.py:47-59 | the first loop writes the merge's first `i + j` elements and stops when a half is used up |
| InteractiveSorting.MergeBack | effects/interactiveSorting.py:41-72 | the three loops write the merge over the list, one `onListUpdate()` per slot |
| InteractiveSorting.MergeSort | effects/interactiveSorting.py:30-72 | the list ends as the recursive merge of its halves; the call count is `MergeUpdates(len)`, 0 for length up to 1 |
| InteractiveSorting.Slice | effects/interactiveSorting.py:33-34 | a slice is a fresh copy of that stretch |
| InteractiveSorting.SortedUnique | effects/interactiveSorting.py:1-81 | two ascending permutations of each other are equal |
| InteractiveSorting.SortsAgree | effects/interactiveSorting.py:1-81 | any ascending permutation of the input, as heap sort and bubble sort leave, equals merge sort's result |
| InteractiveSorting.MergeUpdatesOfPower | effects/interactiveSorting.py:30-72 | on a list of length `2^k`, merge sort calls `onListUpdate()` `k * 2^k` times |

## Left out

- Hardware and networking are left out, together with the files that only set them up (`main.py`, `pico/main.py`, `test.py`):
  - MQTT publish and subscribe, `BaseEntity` and the discovery config;
  - `machine.unique_id` and Wi-Fi;
  - the SD card and Neopixel output;
  - frame pacing.
- `Light.handle_mqtt_message` and `command_topic` are left out. They only route MQTT topics.
- `uasyncio` scheduling is not modelled: `create_task`, `gather`, `sleep_ms` and interleavings.
  - A task is an object holding the values it writes, a frame cursor and a cancelled flag.
  - One iteration of its loop is `BrightnessFrame` or `ColorFrame`.
- JSON encoding and decoding are parameters (`dumps`, `loads`), or are already applied. A command arrives as a parsed record, and a parse failure is `None`.
- Files are their sequence of lines. `open` and the filename are left out.
- `numpy` is specified by what `np.unique`, `np.where` and the indexing compute, on sequences. A 1-D `lights` array is not modelled, only the 2-D one.
- Colour channels and fractions are exact reals, not IEEE-754 doubles. At exact boundaries the real model can differ from the float program by one step of `int()`.
- `hsv`, `hls`, `to_hls`, `toHls`, `lightness` and `hue` are left out. They call the `colorsys` library.
- `randomColor` is left out, because it depends on `random()`.
- `__repr__` is left out. It is `__str__`.
- The effects `Color`'s dataclass equality is the equality of `Rgb` values. No separate member models it.
- The light's design describes two things the code does not do. The model follows the code:
  - It describes a saved colour and brightness restored when the light is switched back on. `Light.py` has no such state, and OFF starts no fade.
  - It describes transitions over frames `0 ..= N`. The code runs `range(N)`; see Findings.
- Text.PyInt: does not accept `_` digit separators, non-ASCII digits or non-ASCII whitespace, which Python's `int()` also accepts. No serializer output contains them.
- InteractiveSorting.HeapSort: the list holds integers rather than any comparable Python value. The `onUpdate` callback is modelled as a returned log of the swaps it follows.
- InteractiveSorting.BubbleSort: the list holds integers rather than any comparable Python value. The `onUpdate` callback is modelled as a returned log of the swaps it follows.
- InteractiveSorting.MergeSort: the list holds integers, so the stability of taking the left element on a tie is stated on the merge (`MergeFrom`, `MergeSorts`) but cannot be observed in the result. The callback is modelled as a count.
- InteractiveSorting.Replay: a swap naming a position outside the list is a no-op. The sorts never log one.
- The inner loops of the sorts are separate methods: `BubblePass` and `BuildHeap`, and `MergeHeads` and `CopyRest` for the loops of `mergeSort`. `heapify` stays recursive.
- LightControl.FrameCount: a zero `frame_duration_ms` raises `ZeroDivisionError` inside the task. It is modelled as a transition that writes nothing, because the task dies before its first write.

## Findings

| source | as written | input that shows it | evidently intended | confidence | as-written member | corrected member |
|---|---|---|---|---|---|---|
| pico/effect_reader.py:23 | each comma-separated token goes straight to `int()` | the serializer's line `3x0` for one frame of three lights at index 0, or `2r[3x0]` for two such frames | the reader expands `<n>x<v>` tokens and `<n>r[...]` lines, and looks each index up in the `colors` table of the metadata (effects/effect_serializer.py:39-42), so that it yields the colours the serializer was given | not executed | EffectReader.RepeatedIndexLineRejected | EffectFormat.RoundTrip |
| Light.py:92-95 | `range(totalFrames)` stops at the fraction `(N - 1) / N` | brightness 255 to 128 with the default 500 ms in 30 ms frames: the last write is 135, not 128 | frames `0 ..= N`, so that an uninterrupted transition ends on its target | not executed | LightControl.FallingStopsShort | LightControl.SettledBrightnessWrites |
