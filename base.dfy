/** Small wrapper types shared by the whole model. */
module Base {

  /** A value that may be absent: Python's `None` or a missing key. */
  datatype Option<T> = None | Some(value: T)

  /** Either a value or the exception the source would raise instead. */
  datatype Result<T, E> = Ok(value: T) | Err(error: E)

  /** `n` copies of `x`. */
  function Repeat<T>(x: T, n: nat): (r: seq<T>)
    ensures |r| == n
    ensures forall i :: 0 <= i < n ==> r[i] == x
  {
    if n == 0 then [] else [x] + Repeat(x, n - 1)
  }

  /** Concatenation of a sequence of sequences. */
  function Concat<T>(xss: seq<seq<T>>): seq<T>
  {
    if |xss| == 0 then [] else xss[0] + Concat(xss[1..])
  }

  lemma {:induction false} ConcatAppend<T>(xss: seq<seq<T>>, yss: seq<seq<T>>)
    ensures Concat(xss + yss) == Concat(xss) + Concat(yss)
  {
    if |xss| == 0 {
      assert xss + yss == yss;
    } else {
      assert (xss + yss)[1..] == xss[1..] + yss;
      ConcatAppend(xss[1..], yss);
    }
  }

  /** `xs` repeated `k` times in a row. */
  function Cycle<T>(xs: seq<T>, k: nat): (r: seq<T>)
    ensures |r| == k * |xs|
  {
    if k == 0 then [] else xs + Cycle(xs, k - 1)
  }

  /** `2^k`. */
  function Pow2(k: nat): (p: nat)
    ensures p >= 1
  {
    if k == 0 then 1 else 2 * Pow2(k - 1)
  }
}
