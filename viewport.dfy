/**
 * The result list's visible window: the offset recompute that keeps the
 * selected row on screen, and the slice of results a frame shows.
 */
module Viewport {

  /** Rows of results per frame (iamd.py line 13). */
  const MAX_LINES: nat := 12

  /** The selected row lies in the window of `MAX_LINES` rows starting at `offset`. */
  predicate InWindow(selected: int, offset: int) {
    0 <= offset <= selected < offset + MAX_LINES
  }

  function Distance(a: int, b: int): nat {
    if a <= b then b - a else a - b
  }

  /** The recompute at the top of each loop pass (iamd.py lines 180-185): scroll just far
      enough that the selected row is visible, and never above the first row. */
  function ScrollOffset(selected: int, offset: int): (r: int)
    ensures r >= 0
    ensures selected >= 0 ==> InWindow(selected, r)
    ensures InWindow(selected, offset) ==> r == offset
    ensures forall o :: InWindow(selected, o) ==> Distance(r, offset) <= Distance(o, offset)
  {
    var o :=
      if selected < offset then selected
      else if selected >= offset + MAX_LINES then selected - MAX_LINES + 1
      else offset;
    if o < 0 then 0 else o
  }

  /** Offsets move by one row at most when the selection moves by one row. */
  lemma ScrollOneStep(selected: int, offset: int, next: int)
    requires InWindow(selected, offset)
    requires next == selected + 1 || next == selected - 1 || next == selected
    requires next >= 0
    ensures Distance(ScrollOffset(next, offset), offset) <= 1
  {
  }

  /** `results[offset:offset + MAX_LINES]` with Python's clamping slice. */
  function Visible<T>(results: seq<T>, offset: nat): (v: seq<T>)
    ensures |v| <= MAX_LINES
    ensures offset <= |results| ==> |v| == if |results| - offset < MAX_LINES then |results| - offset else MAX_LINES
    ensures forall i :: 0 <= i < |v| ==> offset + i < |results| && v[i] == results[offset + i]
  {
    var lo := if offset <= |results| then offset else |results|;
    var hi := if offset + MAX_LINES <= |results| then offset + MAX_LINES else |results|;
    results[lo..hi]
  }

  /** The frame draws the selected result, on row `selected - offset`: the "▶" row
      is always on screen. */
  lemma SelectedIsVisible<T>(results: seq<T>, selected: int, offset: int)
    requires InWindow(selected, offset) && selected < |results|
    ensures 0 <= selected - offset < |Visible(results, offset)|
    ensures Visible(results, offset)[selected - offset] == results[selected]
  {
  }
}
