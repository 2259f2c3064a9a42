/** The activity state machine of the laundry monitor, as values: one step of
    the main loop and its fold over a finite run of sensor readings, together
    with what they guarantee about when "load finished" is notified. */
module Activity {
  import opened Debounce

  /** What the main loop carries from one reading to the next: the window and
      whether the machine is believed to be running. */
  datatype Status = Status(window: seq<Level>, active: bool)

  /** The result of one step: the new status and whether the notification fires. */
  datatype Outcome = Outcome(next: Status, notify: bool)

  /** What a finite run of readings produces: the `active` flag and the
      notification flag after each reading, and the status at the end. */
  datatype Trace = Trace(actives: seq<bool>, notifies: seq<bool>, final: Status)

  predicate Valid(s: Status) { |s.window| <= Capacity }

  /** The status before the first reading: an empty window, not active. */
  const Initial: Status := Status([], false)

  /** One iteration of the main loop for the reading `level`. */
  function Step(s: Status, level: Level): (r: Outcome)
    requires Valid(s)
    ensures Valid(r.next) && r.next.window == Insert(s.window, level)
  {
    var window := Insert(s.window, level);
    var idle := AllLow(window);
    if level == High then
      if !s.active && !idle then Outcome(Status(window, true), false)
      else Outcome(Status(window, s.active), false)
    else
      if s.active && idle then Outcome(Status(window, false), true)
      else Outcome(Status(window, s.active), false)
  }

  /** The transition rule of the main loop, read off one step. */
  lemma StepRules(s: Status, level: Level)
    requires Valid(s)
    ensures var r := Step(s, level);
            // a High reading never clears `active`, and sets it when it was clear
            (level == High ==> r.next.active && !r.notify) &&
            // a Low reading never sets `active`; it clears it exactly when the window is all-Low
            (level == Low ==> (r.next.active <==> s.active && !AllLow(r.next.window))) &&
            // the notification fires exactly when `active` goes from true to false
            (r.notify <==> s.active && !r.next.active) &&
            // while active, the window holds at least one High reading
            (r.next.active ==> High in r.next.window)
  {
  }

  /** The readings of `levels`, most recent first. */
  function Newest(levels: seq<Level>): (r: seq<Level>)
    ensures |r| == |levels|
    ensures forall i :: 0 <= i < |levels| ==> r[i] == levels[|levels| - 1 - i]
  {
    if levels == [] then [] else [levels[|levels| - 1]] + Newest(levels[..|levels| - 1])
  }

  /** The main loop run over the finite sequence of readings `levels` from `s`. */
  function Run(s: Status, levels: seq<Level>): (t: Trace)
    requires Valid(s)
    ensures |t.actives| == |levels| && |t.notifies| == |levels|
    ensures Valid(t.final)
    // the window grows by one per reading until it holds three
    ensures |t.final.window| == Min(|s.window| + |levels|, Capacity)
    ensures t.final.active == if levels == [] then s.active else t.actives[|levels| - 1]
    decreases |levels|
  {
    if levels == [] then Trace([], [], s)
    else
      var t := Run(s, levels[..|levels| - 1]);
      var o := Step(t.final, levels[|levels| - 1]);
      Trace(t.actives + [o.next.active], t.notifies + [o.notify], o.next)
  }

  /** Running one more reading extends the trace by that reading's step. */
  lemma RunSnoc(s: Status, p: seq<Level>, x: Level)
    requires Valid(s)
    ensures var t := Run(s, p);
            var o := Step(t.final, x);
            Run(s, p + [x]) == Trace(t.actives + [o.next.active], t.notifies + [o.notify], o.next)
  {
    assert (p + [x])[..|p|] == p;
  }

  /** The trace of the first `i + 1` readings extends that of the first `i` by
      the step on reading `i`. */
  lemma RunExtend(s: Status, levels: seq<Level>, i: nat)
    requires Valid(s) && i < |levels|
    ensures var t := Run(s, levels[..i]);
            var o := Step(t.final, levels[i]);
            Run(s, levels[..i + 1]) == Trace(t.actives + [o.next.active], t.notifies + [o.notify], o.next)
  {
    assert levels[..i + 1] == levels[..i] + [levels[i]];
    RunSnoc(s, levels[..i], levels[i]);
  }

  lemma AppendAssoc(a: seq<bool>, b: seq<bool>, c: seq<bool>)
    ensures a + (b + c) == (a + b) + c
  {
  }

  /** Running `a` and then `b` is running `a + b`. */
  lemma {:induction false} RunAppend(s: Status, a: seq<Level>, b: seq<Level>)
    requires Valid(s)
    ensures var ta := Run(s, a);
            var tb := Run(ta.final, b);
            var t := Run(s, a + b);
            t.actives == ta.actives + tb.actives && t.notifies == ta.notifies + tb.notifies &&
            t.final == tb.final
    decreases |b|
  {
    if b == [] {
      assert a + b == a;
    } else {
      var b' := b[..|b| - 1];
      var x := b[|b| - 1];
      assert b == b' + [x];
      assert a + b == (a + b') + [x];
      RunAppend(s, a, b');
      var ta := Run(s, a);
      var t' := Run(s, a + b');
      var tb' := Run(ta.final, b');
      assert t'.final == tb'.final;
      var o := Step(t'.final, x);
      RunSnoc(s, a + b', x);
      RunSnoc(ta.final, b', x);
      assert Run(s, a + b) == Trace(t'.actives + [o.next.active], t'.notifies + [o.notify], o.next);
      assert Run(ta.final, b) == Trace(tb'.actives + [o.next.active], tb'.notifies + [o.notify], o.next);
      AppendAssoc(ta.actives, tb'.actives, [o.next.active]);
      AppendAssoc(ta.notifies, tb'.notifies, [o.notify]);
    }
  }

  /** The trace of a prefix of the readings is the prefix of the trace. */
  lemma {:induction false} RunPrefix(s: Status, levels: seq<Level>, m: nat)
    requires Valid(s) && m <= |levels|
    ensures Run(s, levels[..m]).actives == Run(s, levels).actives[..m]
    ensures Run(s, levels[..m]).notifies == Run(s, levels).notifies[..m]
  {
    RunAppend(s, levels[..m], levels[m..]);
    assert levels[..m] + levels[m..] == levels;
  }

  /** Entry `k` of a trace is the step taken on reading `k` from the status
      reached after the first `k` readings. */
  lemma RunAt(s: Status, levels: seq<Level>, k: nat)
    requires Valid(s) && k < |levels|
    ensures var before := Run(s, levels[..k]).final;
            var o := Step(before, levels[k]);
            var t := Run(s, levels);
            t.actives[k] == o.next.active && t.notifies[k] == o.notify &&
            before.active == (if k == 0 then s.active else t.actives[k - 1])
  {
    RunExtend(s, levels, k);
    RunPrefix(s, levels, k + 1);
    RunPrefix(s, levels, k);
    var t := Run(s, levels);
    var tp := Run(s, levels[..k]);
    var tq := Run(s, levels[..k + 1]);
    assert tq.actives[k] == t.actives[k] && tq.notifies[k] == t.notifies[k];
    if k > 0 {
      assert tp.actives[k - 1] == t.actives[k - 1];
    }
  }

  /** After any readings from the start, the window holds the most recent
      readings (up to three), most recent first. */
  lemma {:induction false} RunWindow(s: Status, levels: seq<Level>)
    requires Valid(s)
    ensures Run(s, levels).final.window ==
            (Newest(levels) + s.window)[..Min(|s.window| + |levels|, Capacity)]
    decreases |levels|
  {
    if levels == [] {
      assert Newest(levels) + s.window == s.window;
    } else {
      var init := levels[..|levels| - 1];
      var x := levels[|levels| - 1];
      RunWindow(s, init);
      var all := Newest(init) + s.window;
      var m := Min(|s.window| + |init|, Capacity);
      var w := Run(s, init).final.window;
      assert w == all[..m];
      var r := Run(s, levels).final.window;
      assert r == Insert(w, x);
      var n := Min(|s.window| + |levels|, Capacity);
      assert |r| == n;
      assert Newest(levels) + s.window == [x] + all;
      assert r == [x] + w[..n - 1];
      assert w[..n - 1] == all[..n - 1];
      assert ([x] + all)[..n] == [x] + all[..n - 1];
    }
  }

  /** The idle signal after a run from the start is true exactly when the
      most recent readings, up to three of them, are all Low. */
  lemma IdleMeansRecentLows(levels: seq<Level>)
    ensures AllLow(Run(Initial, levels).final.window) <==>
            forall i :: |levels| - Min(|levels|, Capacity) <= i < |levels| ==> levels[i] == Low
  {
    RunWindow(Initial, levels);
    var w := Run(Initial, levels).final.window;
    var n := Min(|levels|, Capacity);
    assert Newest(levels) + [] == Newest(levels);
    assert |w| == n;
    forall i | 0 <= i < n
      ensures w[i] == levels[|levels| - 1 - i]
    {
    }
    if AllLow(w) {
      forall i | |levels| - n <= i < |levels|
        ensures levels[i] == Low
      {
        assert w[|levels| - 1 - i] == levels[i];
      }
    }
  }

  /** A notification fires only on a step that clears `active`: the previous
      step left the machine active and this one leaves it idle. */
  lemma NotifyOnlyOnFall(s: Status, levels: seq<Level>, k: nat)
    requires Valid(s) && k < |levels| && Run(s, levels).notifies[k]
    ensures !Run(s, levels).actives[k]
    ensures if k == 0 then s.active else Run(s, levels).actives[k - 1]
  {
    RunAt(s, levels, k);
  }

  /** In any run of booleans that goes from false at `i` to true at `m`, some
      step in between goes from false to true. */
  lemma {:induction false} RisingEdge(a: seq<bool>, i: nat, m: nat)
    requires i < m < |a| && !a[i] && a[m]
    ensures exists k :: i < k <= m && !a[k - 1] && a[k]
    decreases m
  {
    if a[m - 1] {
      RisingEdge(a, i, m - 1);
    } else {
      assert i < m <= m && !a[m - 1] && a[m];
    }
  }

  /** Between any two notifications there is a step that started a new load. */
  lemma NotificationsSeparated(s: Status, levels: seq<Level>, i: nat, j: nat)
    requires Valid(s) && i < j < |levels|
    requires Run(s, levels).notifies[i] && Run(s, levels).notifies[j]
    ensures exists k :: i < k < j && !Run(s, levels).actives[k - 1] && Run(s, levels).actives[k]
  {
    var a := Run(s, levels).actives;
    NotifyOnlyOnFall(s, levels, i);
    NotifyOnlyOnFall(s, levels, j);
    assert !a[i] && a[j - 1];
    RisingEdge(a, i, j - 1);
  }

  /** Nothing but High readings keep the machine active and never notify. */
  lemma {:induction false} HighsNeverNotify(s: Status, levels: seq<Level>)
    requires Valid(s)
    requires forall i :: 0 <= i < |levels| ==> levels[i] == High
    ensures forall i :: 0 <= i < |levels| ==> Run(s, levels).actives[i] && !Run(s, levels).notifies[i]
    decreases |levels|
  {
    if levels != [] {
      var init := levels[..|levels| - 1];
      HighsNeverNotify(s, init);
      RunSnoc(s, init, levels[|levels| - 1]);
      assert init + [levels[|levels| - 1]] == levels;
    }
  }

  /** While idle, Low readings neither start a load nor notify: once a load
      has finished, more Low readings never produce a second notification. */
  lemma {:induction false} LowsWhileIdle(s: Status, levels: seq<Level>)
    requires Valid(s) && !s.active
    requires forall i :: 0 <= i < |levels| ==> levels[i] == Low
    ensures !Run(s, levels).final.active
    ensures forall i :: 0 <= i < |levels| ==> !Run(s, levels).actives[i] && !Run(s, levels).notifies[i]
    decreases |levels|
  {
    if levels != [] {
      var init := levels[..|levels| - 1];
      LowsWhileIdle(s, init);
      RunSnoc(s, init, levels[|levels| - 1]);
      assert init + [levels[|levels| - 1]] == levels;
    }
  }

  /** The four steps of a High reading followed by three Low readings. */
  lemma DelaySteps(s: Status)
    requires Valid(s)
    ensures var o1 := Step(s, High);
            var o2 := Step(o1.next, Low);
            var o3 := Step(o2.next, Low);
            var o4 := Step(o3.next, Low);
            o1.next.active && o2.next.active && o3.next.active && !o4.next.active &&
            !o1.notify && !o2.notify && !o3.notify && o4.notify &&
            o4.next == Status([Low, Low, Low], false)
  {
    DelayWindows(s.window);
  }

  /** After a High reading, from any status, two Low readings keep the load
      running and the third Low ends it with exactly one notification. */
  lemma DebounceDelay(s: Status)
    requires Valid(s)
    ensures var t := Run(s, [High, Low, Low, Low]);
            t.actives == [true, true, true, false] && t.notifies == [false, false, false, true] &&
            t.final == Status([Low, Low, Low], false)
  {
    DelaySteps(s);
    RunFour(s, High, Low, Low, Low);
  }

  /** The trace of four readings, step by step. */
  lemma RunFour(s: Status, x: Level, y: Level, z: Level, u: Level)
    requires Valid(s)
    ensures var o1 := Step(s, x);
            var o2 := Step(o1.next, y);
            var o3 := Step(o2.next, z);
            var o4 := Step(o3.next, u);
            Run(s, [x, y, z, u]) ==
              Trace([o1.next.active, o2.next.active, o3.next.active, o4.next.active],
                    [o1.notify, o2.notify, o3.notify, o4.notify], o4.next)
  {
    var p3 := [x, y, z];
    RunThree(s, x, y, z);
    RunSnoc(s, p3, u);
    Snoc4(x, y, z, u);
    var t3 := Run(s, p3);
    Snoc4(t3.actives[0], t3.actives[1], t3.actives[2], Step(t3.final, u).next.active);
    Snoc4(t3.notifies[0], t3.notifies[1], t3.notifies[2], Step(t3.final, u).notify);
  }

  lemma Snoc4<T>(a: T, b: T, c: T, d: T)
    ensures [a, b, c] + [d] == [a, b, c, d]
  {
  }

  /** The trace of three readings, step by step. */
  lemma RunThree(s: Status, x: Level, y: Level, z: Level)
    requires Valid(s)
    ensures var o1 := Step(s, x);
            var o2 := Step(o1.next, y);
            var o3 := Step(o2.next, z);
            Run(s, [x, y, z]) ==
              Trace([o1.next.active, o2.next.active, o3.next.active], [o1.notify, o2.notify, o3.notify], o3.next)
  {
    var o1 := Step(s, x);
    var o2 := Step(o1.next, y);
    var o3 := Step(o2.next, z);
    var p1 := [x];
    var p2 := p1 + [y];
    var p3 := p2 + [z];
    RunOne(s, x);
    RunSnoc(s, p1, y);
    RunSnoc(s, p2, z);
    Snoc3(o1.next.active, o2.next.active, o3.next.active);
    Snoc3(o1.notify, o2.notify, o3.notify);
    Snoc3(x, y, z);
  }

  lemma Snoc3<T>(a: T, b: T, c: T)
    ensures [a] + [b] == [a, b] && [a, b] + [c] == [a, b, c]
  {
  }

  /** The trace of a single reading is its step. */
  lemma RunOne(s: Status, x: Level)
    requires Valid(s)
    ensures var o := Step(s, x);
            Run(s, [x]) == Trace([o.next.active], [o.notify], o.next)
  {
    assert [x][..0] == [];
  }

  /** The three steps of three Low readings from a reachable active status:
      exactly one of them notifies, and the last leaves the machine idle. */
  lemma ThreeLowSteps(s: Status)
    requires Valid(s) && s.active && High in s.window
    ensures var o1 := Step(s, Low);
            var o2 := Step(o1.next, Low);
            var o3 := Step(o2.next, Low);
            !o3.next.active &&
            [o1.notify, o2.notify, o3.notify] in {[true, false, false], [false, true, false], [false, false, true]}
  {
    var o1 := Step(s, Low);
    var o2 := Step(o1.next, Low);
    var o3 := Step(o2.next, Low);
    StepRules(s, Low);
    StepRules(o1.next, Low);
    StepRules(o2.next, Low);
    ThreeLowsClearWindow(s.window);
    assert AllLow(o3.next.window);
    if o1.notify {
      assert !o2.notify && !o3.notify;
    } else if o2.notify {
      assert !o3.notify;
    } else {
      assert o3.notify;
    }
  }

  /** From a reachable active status, three Low readings end the load, with
      exactly one notification among them. */
  lemma ThreeLowsEndLoad(s: Status)
    requires Valid(s) && s.active && High in s.window
    ensures var t := Run(s, [Low, Low, Low]);
            !t.final.active &&
            t.notifies in {[true, false, false], [false, true, false], [false, false, true]}
  {
    ThreeLowSteps(s);
    RunThree(s, Low, Low, Low);
  }

  /** The readings Low, Low, Low, High, Low, Low, Low from the start give the
      `active` trace F, F, F, T, T, T, F and one notification, at the last reading. */
  lemma Scenario()
    ensures var t := Run(Initial, [Low, Low, Low, High, Low, Low, Low]);
            t.actives == [false, false, false, true, true, true, false] &&
            t.notifies == [false, false, false, false, false, false, true]
  {
    var idle := Status([Low, Low, Low], false);
    RunThree(Initial, Low, Low, Low);
    assert Run(Initial, [Low, Low, Low]) == Trace([false, false, false], [false, false, false], idle);
    DebounceDelay(idle);
    RunAppend(Initial, [Low, Low, Low], [High, Low, Low, Low]);
    Concat34(Low, Low, Low, High, Low, Low, Low);
    Concat34(false, false, false, true, true, true, false);
    Concat34(false, false, false, false, false, false, true);
  }

  lemma Concat34<T>(a: T, b: T, c: T, d: T, e: T, f: T, g: T)
    ensures [a, b, c] + [d, e, f, g] == [a, b, c, d, e, f, g]
  {
  }

  /** Every status reached from the start satisfies the detector's invariant:
      while active, the window holds a High reading. */
  lemma ReachableInvariant(levels: seq<Level>)
    ensures Run(Initial, levels).final.active ==> High in Run(Initial, levels).final.window
  {
    if levels != [] {
      var init := levels[..|levels| - 1];
      var x := levels[|levels| - 1];
      assert init + [x] == levels;
      RunSnoc(Initial, init, x);
      StepRules(Run(Initial, init).final, x);
    }
  }
}
