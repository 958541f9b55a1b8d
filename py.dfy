/**
 * The Python values the formatter works on: JSON objects as a jsonlines
 * reader decodes them, the exceptions the script can raise, and Python's
 * slice semantics for lists.
 */
module Py {
  import opened Wrappers

  /** A decoded JSON value (numbers are integers here; see README). */
  datatype Value =
    | Null
    | Bool(b: bool)
    | Num(n: int)
    | Str(s: string)
    | Arr(items: seq<Value>)
    | Obj(fields: map<string, Value>)

  /** One input line: a JSON object, i.e. a Python dict with string keys. */
  type Record = map<string, Value>

  /** The exceptions the formatter can raise; each one ends the run. */
  datatype Exception =
    | AttributeError(attribute: string)
    | KeyError(key: string)
    | TypeError(reason: string)

  function Min(a: int, b: int): (m: int) { if a < b then a else b }

  /**
   * One bound of `xs[start:stop]` with step 1, as CPython normalises it:
   * `None` takes the default, a negative index counts from the end, and the
   * result is clamped to `0..n`.
   */
  function Bound(i: Option<int>, n: nat, default: nat): (b: nat)
    requires default <= n
    ensures b <= n
    ensures i.None? ==> b == default
    ensures i.Some? && 0 <= i.value ==> b == Min(i.value, n)
    ensures i.Some? && i.value < 0 <= i.value + n ==> b == i.value + n
    ensures i.Some? && i.value + n < 0 ==> b == 0
  {
    match i
    case None => default
    case Some(k) =>
      if k < 0 then (if k + n < 0 then 0 else k + n)
      else if k > n then n
      else k
  }

  /**
   * Python's `xs[start:stop]`; a missing or `None` bound is `None`. The
   * result is the contiguous run of `xs` that begins at the normalised
   * start; with `None` the slice runs from the beginning or to the end.
   */
  function Slice<T>(xs: seq<T>, start: Option<int>, stop: Option<int>): (r: seq<T>)
    ensures Bound(start, |xs|, 0) + |r| <= |xs|
    ensures |r| == if Bound(start, |xs|, 0) < Bound(stop, |xs|, |xs|)
                   then Bound(stop, |xs|, |xs|) - Bound(start, |xs|, 0) else 0
    ensures forall i :: 0 <= i < |r| ==> r[i] == xs[Bound(start, |xs|, 0) + i]
    ensures start.None? && stop.None? ==> r == xs
    ensures start.None? && stop.Some? && stop.value >= 0 ==> r == xs[..Min(stop.value, |xs|)]
    ensures start.Some? && start.value >= 0 && stop.None? ==> r == xs[Min(start.value, |xs|)..]
  {
    var lo := Bound(start, |xs|, 0);
    var hi := Bound(stop, |xs|, |xs|);
    if lo < hi then xs[lo..hi] else []
  }

  /**
   * For natural offsets the slice is the elements at `[start, min(stop, n))`,
   * and it is empty exactly when `start >= stop` or `start >= n`.
   */
  lemma SliceOfNaturals<T>(xs: seq<T>, start: nat, stop: nat)
    ensures Slice(xs, Some(start), Some(stop))
         == if start < stop && start < |xs| then xs[start..Min(stop, |xs|)] else []
    ensures Slice(xs, Some(start), Some(stop)) == [] <==> start >= stop || start >= |xs|
  {
  }
}
