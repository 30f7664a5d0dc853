/**
 * `effects/interactiveSorting.py`: three in-place sorts of a list that call a
 * callback on every change so that each intermediate state can be drawn as a
 * frame. The list is an array of integers. Heap sort and bubble sort report each
 * `onUpdate()` call as the pair of positions they just swapped; merge sort
 * reports the number of `onListUpdate()` calls.
 */
module InteractiveSorting {
  import opened Base

  /** A swap of two positions, in the order the source's tuple assignment names them. */
  type SwapLog = seq<(nat, nat)>

  predicate Sorted(s: seq<int>)
  {
    forall x, y :: 0 <= x < y < |s| ==> s[x] <= s[y]
  }

  /** Every logged position is below `n`. */
  predicate InRange(log: SwapLog, n: nat)
  {
    forall k :: 0 <= k < |log| ==> log[k].0 < n && log[k].1 < n
  }

  function Swap(s: seq<int>, i: nat, j: nat): (t: seq<int>)
    requires i < |s| && j < |s|
    ensures |t| == |s| && t[i] == s[j] && t[j] == s[i]
    ensures forall k :: 0 <= k < |s| && k != i && k != j ==> t[k] == s[k]
  {
    s[i := s[j]][j := s[i]]
  }

  lemma SwapPermutes(s: seq<int>, i: nat, j: nat)
    requires i < |s| && j < |s|
    ensures multiset(Swap(s, i, j)) == multiset(s)
  {
  }

  /**
   * The list after the logged swaps, in order. A swap naming a position
   * outside the list would leave it alone; the sorts only log swaps inside it.
   */
  function Replay(s: seq<int>, log: SwapLog): (t: seq<int>)
    ensures |t| == |s|
    decreases |log|
  {
    if |log| == 0 then s
    else
      var p := log[0];
      Replay(if p.0 < |s| && p.1 < |s| then Swap(s, p.0, p.1) else s, log[1..])
  }

  /** Swapping only ever permutes. */
  lemma {:induction false} ReplayPermutes(s: seq<int>, log: SwapLog)
    ensures multiset(Replay(s, log)) == multiset(s)
    decreases |log|
  {
    if |log| > 0 {
      var p := log[0];
      if p.0 < |s| && p.1 < |s| {
        SwapPermutes(s, p.0, p.1);
      }
      ReplayPermutes(if p.0 < |s| && p.1 < |s| then Swap(s, p.0, p.1) else s, log[1..]);
    }
  }

  /** Replaying two logs one after the other is replaying their concatenation. */
  lemma {:induction false} ReplayAppend(s: seq<int>, l1: SwapLog, l2: SwapLog)
    ensures Replay(s, l1 + l2) == Replay(Replay(s, l1), l2)
    decreases |l1|
  {
    if |l1| > 0 {
      var p := l1[0];
      assert (l1 + l2)[0] == p;
      assert (l1 + l2)[1..] == l1[1..] + l2;
      ReplayAppend(if p.0 < |s| && p.1 < |s| then Swap(s, p.0, p.1) else s, l1[1..], l2);
    } else {
      assert l1 + l2 == l2;
    }
  }

  lemma InRangeWiden(log: SwapLog, m: nat, n: nat)
    requires InRange(log, m) && m <= n
    ensures InRange(log, n)
  {
  }

  lemma InRangeAppend(l1: SwapLog, l2: SwapLog, n: nat)
    requires InRange(l1, n) && InRange(l2, n)
    ensures InRange(l1 + l2, n)
  {
  }

  /** Swaps below position `n` leave the list from `n` on alone. */
  lemma {:induction false} ReplayOutside(s: seq<int>, log: SwapLog, n: nat)
    requires n <= |s| && InRange(log, n)
    ensures Replay(s, log)[n..] == s[n..]
    decreases |log|
  {
    if |log| > 0 {
      var t := Swap(s, log[0].0, log[0].1);
      assert t[n..] == s[n..];
      ReplayOutside(t, log[1..], n);
    }
  }

  // ---------------------------------------------------------------- heap sort

  function Parent(c: nat): nat
    requires c > 0
  {
    (c - 1) / 2
  }

  /** A max-heap on `s[..n]` for every parent at or after `lo`. */
  predicate HeapFrom(s: seq<int>, n: nat, lo: nat)
    requires n <= |s|
  {
    forall c :: 0 < c < n && lo <= Parent(c) ==> s[Parent(c)] >= s[c]
  }

  /** The same with the parent `i` excepted: the state `heapify(arr, n, i)` repairs. */
  predicate HeapExcept(s: seq<int>, n: nat, lo: nat, i: nat)
    requires n <= |s|
  {
    forall c :: 0 < c < n && lo <= Parent(c) && Parent(c) != i ==> s[Parent(c)] >= s[c]
  }

  /** `i`'s parent, if it belongs to the heap, is at least `i`'s children. */
  predicate Bridge(s: seq<int>, n: nat, lo: nat, i: nat)
    requires n <= |s|
  {
    0 < i < n && lo <= Parent(i) ==> forall c :: 0 < c < n && Parent(c) == i ==> s[Parent(i)] >= s[c]
  }

  /** The swap `p` exchanges a parent with its strictly larger child in `t`. */
  predicate SiftSwap(t: seq<int>, p: (nat, nat))
  {
    p.0 < |t| && p.1 < |t| && p.1 > 0 && Parent(p.1) == p.0 && t[p.0] < t[p.1]
  }

  /** Every swap of the log, applied in turn from `s`, moves a strictly larger child above its parent. */
  predicate SiftSwaps(s: seq<int>, log: SwapLog)
    decreases |log|
  {
    |log| == 0 || (SiftSwap(s, log[0]) && SiftSwaps(Swap(s, log[0].0, log[0].1), log[1..]))
  }

  /** The child `heapify` picks is at least the parent and its other child. */
  lemma SiftRepairs(s: seq<int>, n: nat, lo: nat, i: nat, m: nat)
    requires n <= |s| && lo <= i && m < n && (m == 2 * i + 1 || m == 2 * i + 2)
    requires HeapExcept(s, n, lo, i) && Bridge(s, n, lo, i)
    requires s[m] > s[i]
    requires 2 * i + 1 < n ==> s[m] >= s[2 * i + 1]
    requires 2 * i + 2 < n ==> s[m] >= s[2 * i + 2]
    ensures HeapExcept(Swap(s, i, m), n, lo, m) && Bridge(Swap(s, i, m), n, lo, m)
  {
    var t := Swap(s, i, m);
    Children(i, m);
    forall c | 0 < c < n && lo <= Parent(c) && Parent(c) != m
      ensures t[Parent(c)] >= t[c]
    {
      var p := Parent(c);
      if p == i {
        Children(i, c);
      } else if c == i {
        assert s[p] >= s[m];
      } else if c == m {
        assert false;
      }
    }
  }

  /** A parent at least as large as its children completes the heap. */
  lemma SiftDone(s: seq<int>, n: nat, lo: nat, i: nat)
    requires n <= |s| && lo <= i
    requires HeapExcept(s, n, lo, i)
    requires 2 * i + 1 < n ==> s[i] >= s[2 * i + 1]
    requires 2 * i + 2 < n ==> s[i] >= s[2 * i + 2]
    ensures HeapFrom(s, n, lo)
  {
    forall c | 0 < c < n && Parent(c) == i
      ensures s[i] >= s[c]
    {
      Children(i, c);
    }
  }

  /** Replaying a log that starts with a swap. */
  lemma ReplayCons(s: seq<int>, n: nat, p: nat, c: nat, rest: SwapLog)
    requires n <= |s| && p < n && c < n && InRange(rest, n)
    ensures InRange([(p, c)] + rest, n)
    ensures Replay(s, [(p, c)] + rest) == Replay(Swap(s, p, c), rest)
  {
    assert ([(p, c)] + rest)[1..] == rest;
  }

  /** Prepending one sift-down swap to a log of sift-down swaps. */
  lemma SwapThen(s: seq<int>, n: nat, p: nat, c: nat, rest: SwapLog)
    requires n <= |s| && p < c < n && InRange(rest, n)
    requires Parent(c) == p && s[p] < s[c] && SiftSwaps(Swap(s, p, c), rest)
    ensures InRange([(p, c)] + rest, n)
    ensures Replay(s, [(p, c)] + rest) == Replay(Swap(s, p, c), rest)
    ensures SiftSwaps(s, [(p, c)] + rest)
  {
    ReplayCons(s, n, p, c, rest);
    assert ([(p, c)] + rest)[1..] == rest;
  }

  /** The children of `i` are `2i + 1` and `2i + 2`. */
  lemma Children(i: nat, c: nat)
    requires c > 0
    ensures Parent(c) == i <==> c == 2 * i + 1 || c == 2 * i + 2
  {
  }

  /**
   * `heapify(arr, n, i)`: sifts `arr[i]` down inside `arr[..n]` until it is at
   * least its children, calling `onUpdate` after each swap. `lo` is the root of
   * the region being repaired; it takes no part in the computation.
   */
  method Heapify(a: array<int>, n: nat, i: nat, ghost lo: nat) returns (log: SwapLog)
    requires n <= a.Length && lo <= i
    requires HeapExcept(a[..], n, lo, i) && Bridge(a[..], n, lo, i)
    modifies a
    ensures InRange(log, n) && a[..] == Replay(old(a[..]), log)
    ensures SiftSwaps(old(a[..]), log)
    ensures HeapFrom(a[..], n, lo)
    decreases n - i
  {
    var largest: nat := i;
    var l: nat := 2 * i + 1;
    var r: nat := 2 * i + 2;
    if l < n && a[i] < a[l] {
      largest := l;
    }
    if r < n && a[largest] < a[r] {
      largest := r;
    }
    ghost var s := a[..];
    if largest != i {
      SiftRepairs(s, n, lo, i, largest);
      a[i], a[largest] := a[largest], a[i];
      ghost var t := a[..];
      assert t == Swap(s, i, largest);
      var rest := Heapify(a, n, largest, lo);
      Children(i, largest);
      SwapThen(s, n, i, largest, rest);
      log := [(i, largest)] + rest;
    } else {
      SiftDone(s, n, lo, i);
      assert Replay(s, []) == s;
      log := [];
    }
  }

  /** The root of a heap is its largest element. */
  lemma {:induction false} RootIsMax(s: seq<int>, n: nat, k: nat)
    requires n <= |s| && HeapFrom(s, n, 0) && k < n
    ensures s[0] >= s[k]
    decreases k
  {
    if k > 0 {
      RootIsMax(s, n, Parent(k));
    }
  }

  /** A permutation that leaves the suffix from `m` alone permutes the prefix below `m`. */
  lemma PrefixPermuted(s: seq<int>, t: seq<int>, m: nat)
    requires |s| == |t| && m <= |s| && multiset(s) == multiset(t) && s[m..] == t[m..]
    ensures multiset(s[..m]) == multiset(t[..m])
  {
    assert s == s[..m] + s[m..];
    assert t == t[..m] + t[m..];
    assert multiset(s) == multiset(s[..m]) + multiset(s[m..]);
    assert multiset(t) == multiset(t[..m]) + multiset(t[m..]);
    forall v
      ensures multiset(s[..m])[v] == multiset(t[..m])[v]
    {
      assert multiset(s)[v] == multiset(s[..m])[v] + multiset(s[m..])[v];
      assert multiset(t)[v] == multiset(t[..m])[v] + multiset(t[m..])[v];
    }
  }

  /** An upper bound of every element of a prefix survives its permutation. */
  lemma BoundSurvives(s: seq<int>, t: seq<int>, m: nat, v: int)
    requires m <= |s| && m <= |t| && multiset(s[..m]) == multiset(t[..m])
    requires forall x :: 0 <= x < m ==> t[x] <= v
    ensures forall x :: 0 <= x < m ==> s[x] <= v
  {
    forall x | 0 <= x < m
      ensures s[x] <= v
    {
      assert s[..m][x] == s[x];
      assert s[x] in multiset(t[..m]);
      var y :| 0 <= y < m && t[..m][y] == s[x];
    }
  }

  /**
   * The part of heap sort that is finished: from `i` on the list is ascending
   * and no element before `i` exceeds any element from `i` on.
   */
  predicate Settled(s: seq<int>, i: nat)
  {
    forall x, y :: 0 <= x < y < |s| && i <= y ==> s[x] <= s[y]
  }

  /** Moving the heap's root to the end of the heap extends the settled part by one. */
  lemma ExtractStep(s: seq<int>, i: nat)
    requires 0 < i < |s| && HeapFrom(s, i + 1, 0) && Settled(s, i + 1)
    ensures Settled(Swap(s, i, 0), i)
    ensures HeapExcept(Swap(s, i, 0), i, 0, 0)
  {
    forall k | 0 <= k <= i
      ensures s[0] >= s[k]
    {
      RootIsMax(s, i + 1, k);
    }
  }

  /** Heap repair below `i` keeps the settled part: it permutes only the elements below `i`. */
  lemma RepairKeepsSettled(s: seq<int>, i: nat, log: SwapLog)
    requires i <= |s| && Settled(s, i) && InRange(log, i)
    ensures Settled(Replay(s, log), i)
  {
    var t := Replay(s, log);
    ReplayOutside(s, log, i);
    ReplayPermutes(s, log);
    PrefixPermuted(t, s, i);
    forall y | i <= y < |t|
      ensures forall x :: 0 <= x < i ==> t[x] <= t[y]
    {
      assert t[y] == t[i..][y - i] == s[i..][y - i] == s[y];
      BoundSurvives(t, s, i, t[y]);
    }
    forall x, y | 0 <= x < y < |t| && i <= y
      ensures t[x] <= t[y]
    {
      if x >= i {
        assert t[x] == t[i..][x - i] == s[i..][x - i] == s[x];
        assert t[y] == t[i..][y - i] == s[i..][y - i] == s[y];
      }
    }
  }

  /** The first loop of `heapSort`: heapifies every parent, last to first, into a max-heap. */
  method BuildHeap(a: array<int>) returns (log: SwapLog)
    modifies a
    ensures HeapFrom(a[..], a.Length, 0)
    ensures InRange(log, a.Length) && a[..] == Replay(old(a[..]), log)
  {
    ghost var s0 := a[..];
    var n := a.Length;
    log := [];
    var i: int := n / 2 - 1;
    while i >= 0
      invariant -1 <= i < n
      invariant HeapFrom(a[..], n, i + 1)
      invariant InRange(log, n) && a[..] == Replay(s0, log)
    {
      var step := Heapify(a, n, i, i);
      ReplayAppend(s0, log, step);
      InRangeAppend(log, step, n);
      log := log + step;
      i := i - 1;
    }
  }

  /**
   * `heapSort(arr, onUpdate)`: builds a max-heap bottom up, then repeatedly
   * swaps the root to the end of the shrinking heap and repairs the heap.
   * The result is ascending and a permutation of the input; the log holds one
   * entry per `onUpdate()` call and replays the input into the result.
   */
  method HeapSort(a: array<int>) returns (log: SwapLog)
    modifies a
    ensures Sorted(a[..])
    ensures multiset(a[..]) == multiset(old(a[..]))
    ensures InRange(log, a.Length) && a[..] == Replay(old(a[..]), log)
  {
    ghost var s0 := a[..];
    var n := a.Length;
    log := BuildHeap(a);
    var last: nat := if n > 0 then n - 1 else 0;
    while last > 0
      invariant n > 0 ==> last < n && HeapFrom(a[..], last + 1, 0)
      invariant Settled(a[..], last + 1)
      invariant InRange(log, n) && a[..] == Replay(s0, log)
    {
      ghost var s := a[..];
      ExtractStep(s, last);
      a[last], a[0] := a[0], a[last];
      ghost var t := a[..];
      assert t == Swap(s, last, 0);
      ReplayAppend(s0, log, [(last, 0)]);
      InRangeAppend(log, [(last, 0)], n);
      assert Replay(s, [(last, 0)]) == t;
      log := log + [(last, 0)];
      var step := Heapify(a, last, 0, 0);
      RepairKeepsSettled(t, last, step);
      ReplayAppend(s0, log, step);
      InRangeAppend(log, step, n);
      log := log + step;
      last := last - 1;
    }
    ReplayPermutes(s0, log);
  }

  // -------------------------------------------------------------- bubble sort

  /** The swap `p` exchanges neighbours of `t` that are strictly out of order. */
  predicate OutOfOrder(t: seq<int>, p: (nat, nat))
  {
    p.1 < |t| && p.1 == p.0 + 1 && t[p.0] > t[p.1]
  }

  /** Every swap of the log, applied in turn from `s`, exchanges neighbours that are strictly out of order. */
  predicate BubbleSwaps(s: seq<int>, log: SwapLog)
    decreases |log|
  {
    |log| == 0 || (OutOfOrder(s, log[0]) && BubbleSwaps(Swap(s, log[0].0, log[0].1), log[1..]))
  }

  /** Replaying a one-swap log is that swap. */
  lemma ReplayOne(s: seq<int>, n: nat, p: nat, c: nat)
    requires n <= |s| && p < n && c < n
    ensures InRange([(p, c)], n) && Replay(s, [(p, c)]) == Swap(s, p, c)
  {
    ReplayCons(s, n, p, c, []);
    assert [(p, c)] + [] == [(p, c)];
  }

  /** Concatenating two logs of out-of-order swaps, the second replayed after the first. */
  lemma {:induction false} BubbleSwapsAppend(s: seq<int>, l1: SwapLog, l2: SwapLog)
    requires BubbleSwaps(s, l1) && BubbleSwaps(Replay(s, l1), l2)
    ensures BubbleSwaps(s, l1 + l2)
    decreases |l1|
  {
    if |l1| == 0 {
      assert l1 + l2 == l2;
    } else {
      var p := l1[0];
      assert (l1 + l2)[0] == p;
      assert (l1 + l2)[1..] == l1[1..] + l2;
      BubbleSwapsAppend(Swap(s, p.0, p.1), l1[1..], l2);
    }
  }

  /** Appending a swap of out-of-order neighbours to a log of such swaps. */
  lemma BubbleSwapsSnoc(s: seq<int>, log: SwapLog, p: (nat, nat))
    requires BubbleSwaps(s, log) && OutOfOrder(Replay(s, log), p)
    ensures BubbleSwaps(s, log + [p])
  {
    assert [p][1..] == [];
    BubbleSwapsAppend(s, log, [p]);
  }

  /** No element before position `j` exceeds `s[j]`. */
  predicate MaxAt(s: seq<int>, j: nat)
    requires j < |s|
  {
    forall x :: 0 <= x < j ==> s[x] <= s[j]
  }

  /** A maximum of the unsettled prefix, at its end, joins the settled part. */
  lemma SettledGrows(s: seq<int>, m: nat)
    requires 0 < m <= |s| && Settled(s, m) && MaxAt(s, m - 1)
    ensures Settled(s, m - 1)
  {
  }

  /** Settled from position 0 or 1 on is ascending throughout. */
  lemma SettledSorted(s: seq<int>, m: nat)
    requires m <= 1 && Settled(s, m)
    ensures Sorted(s)
  {
  }

  /** The inner pass carries the largest element of the prefix along. */
  lemma Carry(s: seq<int>, j: nat)
    requires j + 1 < |s| && MaxAt(s, j)
    ensures s[j] > s[j + 1] ==> MaxAt(Swap(s, j, j + 1), j + 1)
    ensures s[j] <= s[j + 1] ==> MaxAt(s, j + 1)
  {
  }

  /**
   * The inner loop of `bubbleSort`, `for j in range(0, m - 1)` with
   * `m == n - i`: walks the first `m` elements, swapping neighbours only when
   * the left one is strictly larger, and so carries their maximum to position
   * `m - 1`. Returns the swaps it made, one per `onUpdate()` call.
   */
  method BubblePass(a: array<int>, m: nat) returns (pass: SwapLog)
    requires 0 < m <= a.Length
    modifies a
    ensures InRange(pass, m) && a[..] == Replay(old(a[..]), pass)
    ensures BubbleSwaps(old(a[..]), pass)
    ensures MaxAt(a[..], m - 1)
  {
    ghost var start := a[..];
    pass := [];
    var j: nat := 0;
    while j < m - 1
      invariant j <= m - 1
      invariant MaxAt(a[..], j)
      invariant InRange(pass, m) && a[..] == Replay(start, pass) && BubbleSwaps(start, pass)
    {
      ghost var s := a[..];
      var next: nat := j + 1;
      if a[j] > a[next] {
        a[j], a[next] := a[next], a[j];
        assert a[..] == Swap(s, j, next);
        assert MaxAt(a[..], next) by {
          Carry(s, j);
        }
        assert Replay(start, pass + [(j, next)]) == a[..]
          && InRange(pass + [(j, next)], m)
          && BubbleSwaps(start, pass + [(j, next)]) by {
          BubbleSwapsSnoc(start, pass, (j, next));
          ReplayOne(s, m, j, next);
          ReplayAppend(start, pass, [(j, next)]);
          InRangeAppend(pass, [(j, next)], m);
        }
        pass := pass + [(j, next)];
      } else {
        assert MaxAt(a[..], next) by {
          Carry(s, j);
        }
      }
      j := j + 1;
    }
  }

  /**
   * `bubbleSort(arr, onUpdate)`: pass `i` carries the largest of the first
   * `n - i` elements to position `n - i - 1`. The result is ascending and a
   * permutation of the input; the log holds one entry per `onUpdate()` call,
   * each of them a swap of strictly out-of-order neighbours, and replays the
   * input into the result.
   */
  method BubbleSort(a: array<int>) returns (log: SwapLog)
    modifies a
    ensures Sorted(a[..])
    ensures multiset(a[..]) == multiset(old(a[..]))
    ensures InRange(log, a.Length) && a[..] == Replay(old(a[..]), log)
    ensures BubbleSwaps(old(a[..]), log)
  {
    ghost var s0 := a[..];
    var n := a.Length;
    log := [];
    var i: nat := 0;
    while i + 1 < n
      invariant i <= n && (n > 0 ==> i < n)
      invariant Settled(a[..], n - i)
      invariant InRange(log, n) && a[..] == Replay(s0, log) && BubbleSwaps(s0, log)
    {
      ghost var start := a[..];
      var pass := BubblePass(a, n - i);
      assert Settled(a[..], n - i - 1) by {
        RepairKeepsSettled(start, n - i, pass);
        SettledGrows(a[..], n - i);
      }
      assert InRange(log + pass, n) && a[..] == Replay(s0, log + pass) && BubbleSwaps(s0, log + pass) by {
        InRangeWiden(pass, n - i, n);
        InRangeAppend(log, pass, n);
        ReplayAppend(s0, log, pass);
        BubbleSwapsAppend(s0, log, pass);
      }
      log := log + pass;
      i := i + 1;
    }
    SettledSorted(a[..], n - i);
    ReplayPermutes(s0, log);
  }

  // --------------------------------------------------------------- merge sort

  /**
   * What the three loops at the end of `mergeSort` write from the cursors
   * `i` into `l` and `j` into `r` on: the smaller head first, the left one on
   * a tie, then the rest of whichever list is left over.
   */
  function MergeFrom(l: seq<int>, r: seq<int>, i: nat, j: nat): (m: seq<int>)
    requires i <= |l| && j <= |r|
    ensures |m| == |l| - i + |r| - j
    decreases |l| - i + |r| - j
  {
    if i == |l| then r[j..]
    else if j == |r| then l[i..]
    else if l[i] <= r[j] then [l[i]] + MergeFrom(l, r, i + 1, j)
    else [r[j]] + MergeFrom(l, r, i, j + 1)
  }

  /** The merge of two whole lists. */
  function Merge(l: seq<int>, r: seq<int>): (m: seq<int>)
    ensures |m| == |l| + |r|
  {
    MergeFrom(l, r, 0, 0)
  }

  /** What `mergeSort` leaves in the list: halves sorted recursively, then merged. */
  function MergeSorted(s: seq<int>): (t: seq<int>)
    ensures |t| == |s|
    decreases |s|
  {
    if |s| <= 1 then s else Merge(MergeSorted(s[..|s| / 2]), MergeSorted(s[|s| / 2..]))
  }

  /** The number of `onListUpdate()` calls `mergeSort` makes on a list of length `n`. */
  function MergeUpdates(n: nat): nat
  {
    if n <= 1 then 0 else MergeUpdates(n / 2) + MergeUpdates(n - n / 2) + n
  }

  lemma DropCons(s: seq<int>, i: nat)
    requires i < |s|
    ensures multiset(s[i..]) == multiset([s[i]]) + multiset(s[i + 1..])
  {
    assert s[i..] == [s[i]] + s[i + 1..];
  }

  /** Merging only rearranges: the merge holds exactly the remaining elements of both lists. */
  lemma {:induction false} MergePermutes(l: seq<int>, r: seq<int>, i: nat, j: nat)
    requires i <= |l| && j <= |r|
    ensures multiset(MergeFrom(l, r, i, j)) == multiset(l[i..]) + multiset(r[j..])
    decreases |l| - i + |r| - j
  {
    if i < |l| && j < |r| {
      if l[i] <= r[j] {
        MergePermutes(l, r, i + 1, j);
        DropCons(l, i);
      } else {
        MergePermutes(l, r, i, j + 1);
        DropCons(r, j);
      }
    } else if i == |l| {
      assert l[i..] == [];
    } else {
      assert r[j..] == [];
    }
  }

  /** Every element of a sorted list from `i` on is at least its element at `i`. */
  lemma SortedFrom(s: seq<int>, i: nat)
    requires Sorted(s) && i <= |s|
    ensures Sorted(s[i..])
  {
  }

  /** Prepending an element no larger than the head keeps a list ascending. */
  lemma SortedCons(x: int, rest: seq<int>)
    requires Sorted(rest) && (|rest| > 0 ==> x <= rest[0])
    ensures Sorted([x] + rest)
  {
    var m := [x] + rest;
    forall p, q | 0 <= p < q < |m|
      ensures m[p] <= m[q]
    {
      if p == 0 {
        assert m[q] == rest[q - 1] && rest[0] <= rest[q - 1];
      } else {
        assert m[p] == rest[p - 1] && m[q] == rest[q - 1];
      }
    }
  }

  /** Merging two ascending lists gives an ascending list, starting with the smaller head. */
  lemma {:induction false} MergeSorts(l: seq<int>, r: seq<int>, i: nat, j: nat)
    requires Sorted(l) && Sorted(r) && i <= |l| && j <= |r|
    ensures Sorted(MergeFrom(l, r, i, j))
    ensures i < |l| && (j == |r| || l[i] <= r[j]) ==> MergeFrom(l, r, i, j)[0] == l[i]
    ensures j < |r| && (i == |l| || l[i] > r[j]) ==> MergeFrom(l, r, i, j)[0] == r[j]
    decreases |l| - i + |r| - j
  {
    if i == |l| {
      SortedFrom(r, j);
    } else if j == |r| {
      SortedFrom(l, i);
    } else if l[i] <= r[j] {
      MergeSorts(l, r, i + 1, j);
      SortedCons(l[i], MergeFrom(l, r, i + 1, j));
    } else {
      MergeSorts(l, r, i, j + 1);
      SortedCons(r[j], MergeFrom(l, r, i, j + 1));
    }
  }

  /** `mergeSort` sorts: its result is ascending and a permutation of its input. */
  lemma {:induction false} MergeSortedSorts(s: seq<int>)
    ensures Sorted(MergeSorted(s))
    ensures multiset(MergeSorted(s)) == multiset(s)
    decreases |s|
  {
    if |s| > 1 {
      var h := |s| / 2;
      var l, r := MergeSorted(s[..h]), MergeSorted(s[h..]);
      assert MergeSorted(s) == MergeFrom(l, r, 0, 0);
      MergeSortedSorts(s[..h]);
      MergeSortedSorts(s[h..]);
      MergeSorts(l, r, 0, 0);
      MergePermutes(l, r, 0, 0);
      assert l[0..] == l && r[0..] == r;
      assert s == s[..h] + s[h..];
      assert multiset(s) == multiset(s[..h]) + multiset(s[h..]);
    }
  }

  /** Once one list is used up, the merge is the rest of the other. */
  lemma MergeLeftover(l: seq<int>, r: seq<int>, i: nat, j: nat)
    requires i <= |l| && j <= |r| && (i == |l| || j == |r|)
    ensures MergeFrom(l, r, i, j) == l[i..] + r[j..]
  {
    if i == |l| {
      assert l[i..] == [];
    } else {
      assert r[j..] == [];
    }
  }

  /**
   * The written prefix `a0[..k]`, then the leftover `x` of one list copied
   * in (`a1`), then the leftover `y` of the other (`a2`).
   */
  lemma Assemble(m: seq<int>, k: nat, a0: seq<int>, a1: seq<int>, a2: seq<int>, x: seq<int>, y: seq<int>)
    requires |m| == |a2| == k + |x| + |y| && m[k..] == x + y && k <= |a0| && a0[..k] == m[..k]
    requires k + |x| <= |a1| && a1[..k] == a0[..k] && a1[k..k + |x|] == x
    requires k + |x| <= |a2| && a2[..k + |x|] == a1[..k + |x|] && a2[k + |x|..k + |x| + |y|] == y
    ensures a2 == m
  {
    calc {
      a2;
      a2[..k + |x|] + a2[k + |x|..];
      a1[..k + |x|] + y;
      { assert a1[..k + |x|] == a1[..k] + a1[k..k + |x|]; }
      m[..k] + x + y;
      m[..k] + m[k..];
      m;
    }
  }

  /** The merge's next element, and what follows it. */
  lemma Advance(m: seq<int>, k: nat, x: int, rest: seq<int>)
    requires k <= |m| && m[k..] == [x] + rest
    ensures k < |m| && m[k] == x && m[k + 1..] == rest
  {
    assert m[k..][0] == x;
    assert m[k..][1..] == rest;
  }

  /**
   * Either of the two last loops of `mergeSort`: copies what is left of `src`
   * from position `i` on into the list from slot `k` on, calling
   * `onListUpdate()` after each write. Returns the number of calls.
   */
  method CopyRest(a: array<int>, src: array<int>, i: nat, k: nat) returns (writes: nat)
    requires a != src && i <= src.Length && k + (src.Length - i) <= a.Length
    modifies a
    ensures writes == src.Length - i
    ensures a[..k] == old(a[..k]) && a[k..k + writes] == src[i..]
    ensures a[k + writes..] == old(a[k + writes..])
  {
    writes := 0;
    var p, q := i, k;
    while p < src.Length
      invariant i <= p <= src.Length && q == k + (p - i) && writes == p - i
      invariant forall t :: 0 <= t < k ==> a[t] == old(a[t])
      invariant forall t :: k <= t < q ==> a[t] == src[i + (t - k)]
      invariant forall t :: q <= t < a.Length ==> a[t] == old(a[t])
    {
      a[q] := src[p];
      writes := writes + 1;
      p := p + 1;
      q := q + 1;
    }
    assert a[..k] == old(a[..k]);
    assert a[k..k + writes] == src[i..];
    assert a[k + writes..] == old(a[k + writes..]);
  }

  /**
   * The first of the three loops at the end of `mergeSort`: while both halves
   * have elements left, writes the smaller head (the left one on a tie) into
   * the next slot, calling `onListUpdate()` after each write. Returns how far
   * it got into each half; it stops when either half is used up, having
   * written `i + j` slots.
   */
  method MergeHeads(a: array<int>, left: array<int>, right: array<int>) returns (i: nat, j: nat)
    requires a != left && a != right && a.Length == left.Length + right.Length
    modifies a
    ensures i <= left.Length && j <= right.Length && (i == left.Length || j == right.Length)
    ensures a[..i + j] == Merge(left[..], right[..])[..i + j]
    ensures MergeFrom(left[..], right[..], i, j) == Merge(left[..], right[..])[i + j..]
  {
    ghost var l, r := left[..], right[..];
    ghost var m := Merge(l, r);
    i, j := 0, 0;
    var k := 0;
    while i < left.Length && j < right.Length
      invariant i <= |l| && j <= |r| && k == i + j
      invariant (forall t :: 0 <= t < k ==> a[t] == m[t]) && MergeFrom(l, r, i, j) == m[k..]
      invariant left[..] == l && right[..] == r
    {
      if left[i] <= right[j] {
        Advance(m, k, l[i], MergeFrom(l, r, i + 1, j));
        a[k] := left[i];
        i := i + 1;
      } else {
        Advance(m, k, r[j], MergeFrom(l, r, i, j + 1));
        a[k] := right[j];
        j := j + 1;
      }
      k := k + 1;
    }
    assert a[..k] == m[..k];
  }

  /**
   * The three loops at the end of `mergeSort`: writes the merge of the sorted
   * halves over the list, slot by slot, calling `onListUpdate()` after each
   * write. Returns the number of calls.
   */
  method MergeBack(a: array<int>, left: array<int>, right: array<int>) returns (writes: nat)
    requires a != left && a != right && a.Length == left.Length + right.Length
    modifies a
    ensures a[..] == Merge(left[..], right[..])
    ensures writes == a.Length
  {
    ghost var m := Merge(left[..], right[..]);
    var i, j := MergeHeads(a, left, right);
    var k := i + j;
    ghost var a0 := a[..];
    assert m[k..] == left[i..] + right[j..] by {
      MergeLeftover(left[..], right[..], i, j);
    }
    var fromLeft := CopyRest(a, left, i, k);
    ghost var a1 := a[..];
    var fromRight := CopyRest(a, right, j, k + fromLeft);
    writes := k + fromLeft + fromRight;
    Assemble(m, k, a0, a1, a[..], left[i..], right[j..]);
  }

  /**
   * `mergeSort(myList, onListUpdate)`: sorts copies of both halves
   * recursively, then merges them back over the list. Returns the number of
   * `onListUpdate()` calls.
   */
  method MergeSort(a: array<int>) returns (updates: nat)
    modifies a
    ensures a[..] == MergeSorted(old(a[..]))
    ensures updates == MergeUpdates(a.Length)
    decreases a.Length
  {
    updates := 0;
    if a.Length > 1 {
      ghost var s := a[..];
      var mid := a.Length / 2;
      var left := Slice(a, 0, mid);
      var right := Slice(a, mid, a.Length);
      assert left[..] == s[..mid] && right[..] == s[mid..];
      var u := MergeSort(left);
      var v := MergeSort(right);
      assert left[..] == MergeSorted(s[..mid]) && right[..] == MergeSorted(s[mid..]);
      var w := MergeBack(a, left, right);
      updates := u + v + w;
    }
  }

  /** `myList[lo:hi]`: a fresh list holding a copy of that stretch. */
  method Slice(a: array<int>, lo: nat, hi: nat) returns (b: array<int>)
    requires lo <= hi <= a.Length
    ensures fresh(b) && b[..] == a[lo..hi]
  {
    b := new int[hi - lo];
    forall k | 0 <= k < hi - lo {
      b[k] := a[lo + k];
    }
  }

  // ------------------------------------------------------------ all three agree

  /** The first element of an ascending list is its least. */
  lemma HeadIsLeast(s: seq<int>, v: int)
    requires Sorted(s) && v in multiset(s)
    ensures |s| > 0 && s[0] <= v
  {
    assert v in s;
  }

  lemma TailSorted(s: seq<int>)
    requires Sorted(s) && |s| > 0
    ensures Sorted(s[1..])
  {
  }

  /** Removing equal first elements keeps two permutations permutations. */
  lemma TailsPermuted(s: seq<int>, t: seq<int>)
    requires |s| > 0 && |t| > 0 && s[0] == t[0] && multiset(s) == multiset(t)
    ensures multiset(s[1..]) == multiset(t[1..])
  {
    assert s == [s[0]] + s[1..] && t == [t[0]] + t[1..];
    assert multiset(s) == multiset([s[0]]) + multiset(s[1..]);
    assert multiset(t) == multiset([t[0]]) + multiset(t[1..]);
    forall v
      ensures multiset(s[1..])[v] == multiset(t[1..])[v]
    {
      assert multiset(s)[v] == multiset([s[0]])[v] + multiset(s[1..])[v];
      assert multiset(t)[v] == multiset([t[0]])[v] + multiset(t[1..])[v];
    }
  }

  /** Two ascending lists with the same elements are equal. */
  lemma {:induction false} SortedUnique(s: seq<int>, t: seq<int>)
    requires Sorted(s) && Sorted(t) && multiset(s) == multiset(t)
    ensures s == t
    decreases |s|
  {
    if |s| == 0 {
      assert |multiset(t)| == 0;
    } else {
      HeadIsLeast(t, s[0]);
      HeadIsLeast(s, t[0]);
      TailSorted(s);
      TailSorted(t);
      TailsPermuted(s, t);
      SortedUnique(s[1..], t[1..]);
      assert s == [s[0]] + s[1..] && t == [t[0]] + t[1..];
    }
  }

  /** Heap sort, bubble sort and merge sort leave the same list behind. */
  lemma SortsAgree(s: seq<int>, t: seq<int>)
    requires Sorted(t) && multiset(t) == multiset(s)
    ensures t == MergeSorted(s)
  {
    MergeSortedSorts(s);
    SortedUnique(t, MergeSorted(s));
  }

  /** On a list of length `2^k` merge sort calls `onListUpdate()` `k * 2^k` times. */
  lemma {:induction false} MergeUpdatesOfPower(k: nat, n: nat)
    requires n == Pow2(k)
    ensures MergeUpdates(n) == k * n
  {
    if k > 0 {
      var h := Pow2(k - 1);
      assert n / 2 == h && n - n / 2 == h;
      MergeUpdatesOfPower(k - 1, h);
      assert MergeUpdates(n) == (k - 1) * h + (k - 1) * h + 2 * h;
      DoubleStep(k - 1, h);
    }
  }

  /** `a * h + a * h + 2 * h == (a + 1) * (2 * h)`. */
  lemma DoubleStep(a: nat, h: nat)
    ensures a * h + a * h + 2 * h == (a + 1) * (2 * h)
  {
    calc {
      (a + 1) * (2 * h);
      a * (2 * h) + 2 * h;
      a * h + a * h + 2 * h;
    }
  }
}
