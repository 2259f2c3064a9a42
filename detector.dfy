/** The laundry monitor's main loop as mutable state: the signal window kept
    in a three-slot buffer with a length counter, and the `active` flag,
    updated in place for each sensor reading. */
module Detector {
  import opened Debounce
  import Activity

  class LoadDetector {
    /** The buffer behind the `signals` window; only `signals[..len]` is in use. */
    var signals: array<Level>
    var len: nat
    /** Whether the laundry machine is believed to be running. */
    var active: bool

    /** The buffer has the window's capacity and holds at most that many readings. */
    ghost predicate WellFormed()
      reads this
    {
      signals.Length == Capacity && len <= Capacity
    }

    /** The readings currently held, most recent first. */
    ghost function Window(): seq<Level>
      reads this, signals
      requires WellFormed()
    {
      signals[..len]
    }

    /** The detector's invariant: while active, the window holds a High reading. */
    ghost predicate Valid()
      reads this, signals
    {
      WellFormed() && (active ==> High in Window())
    }

    /** The detector's state as a value. */
    ghost function Snapshot(): (s: Activity.Status)
      reads this, signals
      requires WellFormed()
      ensures Activity.Valid(s)
    {
      Activity.Status(Window(), active)
    }

    /** `ArrayVec::<[Level; 3]>::new()` and `active = false`. */
    constructor ()
      ensures Valid() && fresh(signals)
      ensures Snapshot() == Activity.Initial
    {
      signals := new Level[Capacity];
      len := 0;
      active := false;
    }

    /** `insert(0, level)`: the held readings move up one slot and `level`
        takes slot 0. */
    method InsertFront(level: Level)
      requires WellFormed() && len < Capacity
      modifies this, signals
      ensures WellFormed() && signals == old(signals) && active == old(active)
      ensures Window() == [level] + old(Window())
    {
      var i := len;
      while i > 0
        invariant 0 <= i <= len && signals == old(signals) && len == old(len) && active == old(active)
        invariant forall k :: 0 <= k < i ==> signals[k] == old(signals[k])
        invariant forall k :: i < k <= len ==> signals[k] == old(signals[k - 1])
        decreases i
      {
        signals[i] := signals[i - 1];
        i := i - 1;
      }
      signals[0] := level;
      len := len + 1;
      assert Window() == [level] + old(Window()) by {
        forall k | 0 <= k < len
          ensures Window()[k] == ([level] + old(Window()))[k]
        {
        }
      }
    }

    /** `try_insert(0, level)`: inserts in front when there is room and
        reports failure, leaving the window as it was, when it is full. */
    method TryInsertFront(level: Level) returns (ok: bool)
      requires WellFormed()
      modifies this, signals
      ensures WellFormed() && signals == old(signals) && active == old(active)
      ensures ok <==> |old(Window())| < Capacity
      ensures Window() == if ok then [level] + old(Window()) else old(Window())
    {
      ok := len < Capacity;
      if ok {
        InsertFront(level);
      }
    }

    /** `remove(index)`: takes out the reading at `index`; the readings after
        it move down one slot. */
    method Remove(index: nat) returns (removed: Level)
      requires WellFormed() && index < len
      modifies this, signals
      ensures WellFormed() && signals == old(signals) && active == old(active)
      ensures removed == old(Window())[index]
      ensures Window() == old(Window())[..index] + old(Window())[index + 1..]
    {
      removed := signals[index];
      var i := index;
      while i + 1 < len
        invariant index <= i < len && signals == old(signals) && len == old(len) && active == old(active)
        invariant forall k :: 0 <= k < index ==> signals[k] == old(signals[k])
        invariant forall k :: index <= k < i ==> signals[k] == old(signals[k + 1])
        invariant forall k :: i < k < len ==> signals[k] == old(signals[k])
        decreases len - i
      {
        signals[i] := signals[i + 1];
        i := i + 1;
      }
      len := len - 1;
      assert Window() == old(Window())[..index] + old(Window())[index + 1..] by {
        forall k | 0 <= k < len
          ensures Window()[k] == (old(Window())[..index] + old(Window())[index + 1..])[k]
        {
        }
      }
    }

    /** The window update of one loop iteration: insert the reading in front,
        and when the window is full, first drop its oldest reading. */
    method Observe(level: Level)
      requires WellFormed()
      modifies this, signals
      ensures WellFormed() && signals == old(signals) && active == old(active)
      ensures Window() == Insert(old(Window()), level)
    {
      var ok := TryInsertFront(level);
      if !ok {
        var _ := Remove(2);
        InsertFront(level);
      }
    }

    /** `is_idle`: whether every reading held in the window is Low. */
    method IsIdle() returns (idle: bool)
      requires WellFormed()
      ensures idle == AllLow(Window())
    {
      idle := true;
      var i := 0;
      while i < len && idle
        invariant 0 <= i <= len
        invariant idle <==> forall k :: 0 <= k < i ==> signals[k] == Low
      {
        idle := signals[i] == Low;
        i := i + 1;
      }
    }

    /** One iteration of the main loop for the sensor reading `level`;
        `notify` tells whether the "load finished" message is sent. */
    method Step(level: Level) returns (notify: bool)
      requires Valid()
      modifies this, signals
      ensures Valid() && signals == old(signals)
      ensures Activity.Step(old(Snapshot()), level) == Activity.Outcome(Snapshot(), notify)
    {
      Observe(level);
      var idle := IsIdle();
      notify := false;
      if level == High {
        if !active && !idle {
          active := true;
        }
      } else {
        if active && idle {
          active := false;
          notify := true;
        }
      }
      Activity.StepRules(old(Snapshot()), level);
    }

    /** The main loop over the finite run of readings `levels`: the `active`
        flag and the notification flag after each reading. */
    method Run(levels: seq<Level>) returns (actives: seq<bool>, notifies: seq<bool>)
      requires Valid()
      modifies this, signals
      ensures Valid() && signals == old(signals)
      ensures var t := Activity.Run(old(Snapshot()), levels);
              actives == t.actives && notifies == t.notifies && Snapshot() == t.final
    {
      ghost var start := Snapshot();
      actives, notifies := [], [];
      var i := 0;
      while i < |levels|
        invariant 0 <= i <= |levels| && Valid() && signals == old(signals)
        invariant var t := Activity.Run(start, levels[..i]);
                  actives == t.actives && notifies == t.notifies && Snapshot() == t.final
      {
        var notify := Step(levels[i]);
        Activity.RunExtend(start, levels, i);
        actives := actives + [active];
        notifies := notifies + [notify];
        i := i + 1;
      }
      assert levels[..|levels|] == levels;
    }
  }

  /** The monitor from power-on over the finite run of readings `levels`: the
      `active` flag and the notification flag after each reading. */
  method Monitor(levels: seq<Level>) returns (actives: seq<bool>, notifies: seq<bool>)
    ensures var t := Activity.Run(Activity.Initial, levels);
            actives == t.actives && notifies == t.notifies
  {
    var detector := new LoadDetector();
    actives, notifies := detector.Run(levels);
  }
}
