/**
 * The page offsets the crawler asks for: `_get_tasks` yields
 * `range(0, 9999, 20)`, one offset per page of twenty companies.
 */
module Offsets {

  /** The page size the listing endpoint uses, and the generator's step. */
  const Stride := 20
  /** The bound `range` stops below: a safety cap against a crawl that never stops. */
  const Cap := 9999

  /** Python's `range(start, stop, step)` for a positive step, in the order a
      `for` loop over it yields the values: `start` first, then the rest of
      the range from `start + step`. */
  function Range(start: int, stop: int, step: int): (r: seq<int>)
    requires step > 0
    ensures start < stop <==> r != []
    decreases stop - start
  {
    if start < stop then [start] + Range(start + step, stop, step) else []
  }

  /** Python's own description of a range with a positive step: the k-th value
      is `start + k * step`, every value is below `stop`, and the next one
      would not be. */
  lemma {:induction false} RangeAt(start: int, stop: int, step: int)
    requires step > 0
    ensures forall k :: 0 <= k < |Range(start, stop, step)| ==> Range(start, stop, step)[k] == start + k * step
    ensures Range(start, stop, step) != [] ==> start + (|Range(start, stop, step)| - 1) * step < stop
    ensures stop <= start + |Range(start, stop, step)| * step
    decreases stop - start
  {
    if start < stop {
      var rest := Range(start + step, stop, step);
      RangeAt(start + step, stop, step);
      forall k | 0 < k < |rest| + 1
        ensures Range(start, stop, step)[k] == start + k * step
      {
        assert Range(start, stop, step)[k] == rest[k - 1];
        assert start + step + (k - 1) * step == start + k * step;
      }
      assert start + step + |rest| * step == start + (|rest| + 1) * step;
      assert start + step + (|rest| - 1) * step == start + |rest| * step;
    }
  }

  /** `_get_tasks`: the offsets of every page the crawler may request, 500 of
      them, the multiples of twenty from 0 to 9980. */
  function Tasks(): (r: seq<int>)
    ensures |r| == 500
    ensures forall k :: 0 <= k < |r| ==> r[k] == Stride * k
    ensures r[0] == 0 && r[|r| - 1] == 9980
  {
    RangeAt(0, Cap, Stride);
    Range(0, Cap, Stride)
  }

  /** Every offset is below the cap, and the offsets come in strictly increasing order. */
  lemma TasksIncrease()
    ensures forall k :: 0 <= k < |Tasks()| ==> 0 <= Tasks()[k] < Cap
    ensures forall i, j :: 0 <= i < j < |Tasks()| ==> Tasks()[i] < Tasks()[j]
  {
  }

  /** A number is one of the generator's offsets exactly when it is a
      non-negative multiple of twenty below the cap. */
  lemma TasksMembership(x: int)
    ensures x in Tasks() <==> 0 <= x < Cap && x % Stride == 0
  {
    if 0 <= x < Cap && x % Stride == 0 {
      assert Tasks()[x / Stride] == x;
    }
  }
}
