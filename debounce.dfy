/** The debounce window of the laundry monitor: the last few vibration-sensor
    levels, most recent first, held in a fixed-capacity buffer of three. */
module Debounce {

  /** One edge reading of the vibration sensor's input line. */
  datatype Level = High | Low

  /** Capacity of the window (`ArrayVec<[Level; 3]>`). */
  const Capacity: nat := 3

  function Min(a: int, b: int): int { if a <= b then a else b }

  /** The window after one reading: `try_insert(0, level)` succeeds while the
      window has room; when it is full, `remove(2)` drops the oldest reading
      and `insert(0, level)` puts the new one in front.  The new reading is
      first, the previous readings follow in their order, and the oldest is
      lost only when the window was full. */
  function Insert(w: seq<Level>, level: Level): (r: seq<Level>)
    requires |w| <= Capacity
    ensures |r| == Min(|w| + 1, Capacity)
    ensures r[0] == level && r[1..] == w[..|r| - 1]
  {
    if |w| < Capacity then [level] + w
    else [level] + w[..Capacity - 1]
  }

  /** `is_idle`: every reading held in the window is Low (the empty window and
      a window that is still filling included). */
  function AllLow(w: seq<Level>): (r: bool)
    ensures r <==> forall i :: 0 <= i < |w| ==> w[i] == Low
    ensures r <==> High !in w
  {
    if w == [] then true else w[0] == Low && AllLow(w[1..])
  }

  /** A window with a High reading at its front is never idle. */
  lemma HighFrontNotIdle(w: seq<Level>, level: Level)
    requires |w| <= Capacity
    ensures level == High ==> !AllLow(Insert(w, level))
  {
  }

  /** Feeding High, Low, Low, Low into the empty window gives the idle signals
      false, false, false, true: the window only turns idle once the High
      reading has been pushed out. */
  lemma StartupIdleSignals()
    ensures var w1 := Insert([], High);
            var w2 := Insert(w1, Low);
            var w3 := Insert(w2, Low);
            var w4 := Insert(w3, Low);
            w2 == [Low, High] && w3 == [Low, Low, High] && w4 == [Low, Low, Low] &&
            !AllLow(w1) && !AllLow(w2) && !AllLow(w3) && AllLow(w4)
  {
  }

  /** After a High reading, the window stays not idle for two Low readings
      and turns idle on the third. */
  lemma DelayWindows(w: seq<Level>)
    requires |w| <= Capacity
    ensures var w1 := Insert(w, High);
            var w2 := Insert(w1, Low);
            var w3 := Insert(w2, Low);
            !AllLow(w1) && !AllLow(w2) && !AllLow(w3) && Insert(w3, Low) == [Low, Low, Low]
  {
    var w1 := Insert(w, High);
    var w2 := Insert(w1, Low);
    var w3 := Insert(w2, Low);
    assert w2[1] == High;
    assert w3 == [Low, Low, High];
  }

  /** A single Low reading into the empty window already reads as idle. */
  lemma FirstLowIsIdle()
    ensures AllLow(Insert([], Low))
  {
  }

  /** Three Low readings leave the window all-Low, whatever it held before. */
  lemma ThreeLowsClearWindow(w: seq<Level>)
    requires |w| <= Capacity
    ensures Insert(Insert(Insert(w, Low), Low), Low) == [Low, Low, Low]
  {
  }
}
