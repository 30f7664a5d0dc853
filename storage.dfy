/**
 * What the codec reads and writes: JSON values (as `json.loads` returns them and
 * `json.dumps` takes them), a dictionary the caller owns and passes by reference,
 * and a text file seen as its sequence of lines.
 */
module Storage {

  /** A JSON value; numbers are integers, which is all the effect metadata carries. */
  datatype Json =
    | JNull
    | JBool(b: bool)
    | JNum(n: int)
    | JStr(s: string)
    | JArr(items: seq<Json>)
    | JObj(fields: map<string, Json>)

  /** A Python `dict` passed by reference: the callee's writes are the caller's. */
  class JsonDict {
    var fields: map<string, Json>

    constructor (fields: map<string, Json>)
      ensures this.fields == fields
    {
      this.fields := fields;
    }

    /** `d[key] = value`. */
    method Set(key: string, value: Json)
      modifies this
      ensures fields == old(fields)[key := value]
    {
      fields := fields[key := value];
    }
  }

  /**
   * A text file as the lines it holds, without their `'\n'` terminators; writing
   * `s + '\n'` appends the line `s`.
   */
  class TextFile {
    var lines: seq<string>

    constructor (lines: seq<string>)
      ensures this.lines == lines
    {
      this.lines := lines;
    }

    method WriteLine(s: string)
      modifies this
      ensures lines == old(lines) + [s]
    {
      lines := lines + [s];
    }
  }
}
