/**
 A model of the Pomodoro interval scheduler: a repetition counter picks one of
 three intervals (work, short break, long break), a one-second countdown shows
 the remaining time as M:SS and, at zero, starts the next interval and redraws
 one check mark per completed work session; reset puts everything back.

 The pure rules (interval choice, time formatting, check marks) are functions
 with lemmas. The scheduler's state is a class `Timer` whose methods are proved
 against specification functions over a value snapshot `State`; the lemmas
 about the whole scheduler are stated over those functions.
 */
module Pomodoro {

  datatype Option<T> = None | Some(value: T)

  /** The three title colours; the hex strings are presentation only. */
  datatype Colour = Red | Pink | Green

  datatype Kind = Work | ShortBreak | LongBreak

  // ---------------------------------------------------------------------------
  // Interval selection
  // ---------------------------------------------------------------------------

  const WorkMin: nat := 25
  const ShortBreakMin: nat := 5
  const LongBreakMin: nat := 20

  /** The interval started when the repetition counter has just become `reps`:
      the multiple-of-8 test comes first, then the parity test. */
  function IntervalFor(reps: nat): Kind
  {
    if reps % 8 == 0 then LongBreak
    else if reps % 2 == 0 then ShortBreak
    else Work
  }

  /** Length of an interval in seconds; always a positive whole number of minutes. */
  function Duration(k: Kind): (secs: nat)
    ensures secs > 0 && secs % 60 == 0
  {
    match k
    case Work => WorkMin * 60
    case ShortBreak => ShortBreakMin * 60
    case LongBreak => LongBreakMin * 60
  }

  function Title(k: Kind): string
  {
    match k
    case Work => "Work"
    case _ => "Break"
  }

  function ColourOf(k: Kind): Colour
  {
    match k
    case Work => Green
    case ShortBreak => Pink
    case LongBreak => Red
  }

  /** One full cycle of intervals, indexed by `reps % 8`. */
  const Cycle: seq<Kind> :=
    [LongBreak, Work, ShortBreak, Work, ShortBreak, Work, ShortBreak, Work]

  /** The three rules with their constants: a multiple of 8 gives a
      20-minute red break, any other even counter a 5-minute pink break, an
      odd counter a 25-minute green work interval. */
  lemma IntervalChoice(reps: nat)
    ensures var k := IntervalFor(reps);
      && (reps % 8 == 0 ==> Duration(k) == 1200 && Title(k) == "Break" && ColourOf(k) == Red)
      && (reps % 8 != 0 && reps % 2 == 0 ==>
            Duration(k) == 300 && Title(k) == "Break" && ColourOf(k) == Pink)
      && (reps % 2 == 1 ==> Duration(k) == 1500 && Title(k) == "Work" && ColourOf(k) == Green)
  {
  }

  /** The interval kind is read off the eight-step cycle. */
  lemma IntervalCycle(reps: nat)
    ensures IntervalFor(reps) == Cycle[reps % 8]
  {
    var r := reps % 8;
    assert reps == 8 * (reps / 8) + r;
    assert reps % 2 == r % 2;
  }

  /** The interval kind repeats with period 8. */
  lemma IntervalPeriodic(reps: nat)
    ensures IntervalFor(reps + 8) == IntervalFor(reps)
  {
    IntervalCycle(reps);
    IntervalCycle(reps + 8);
  }

  /** A repetition is a work interval exactly when it is odd; every even one is a break. */
  lemma WorkIffOdd(reps: nat)
    ensures IntervalFor(reps) == Work <==> reps % 2 == 1
    ensures IntervalFor(reps) == LongBreak <==> reps % 8 == 0
  {
  }

  // ---------------------------------------------------------------------------
  // Time formatting
  // ---------------------------------------------------------------------------

  predicate IsDigit(c: char)
  {
    '0' <= c <= '9'
  }

  predicate AllDigits(s: string)
  {
    forall i :: 0 <= i < |s| ==> IsDigit(s[i])
  }

  function DigitChar(d: nat): (c: char)
    requires d < 10
    ensures IsDigit(c) && (c as int) - ('0' as int) == d
  {
    ('0' as int + d) as char
  }

  /** Decimal rendering of a natural number, as Python's `str` gives it. */
  function Decimal(n: nat): string
  {
    if n < 10 then [DigitChar(n)] else Decimal(n / 10) + [DigitChar(n % 10)]
  }

  /** The decimal text is non-empty, all digits, one digit exactly for the
      numbers below 10, and has no leading zero. */
  lemma {:induction false} DecimalShape(n: nat)
    ensures var s := Decimal(n);
      1 <= |s| && AllDigits(s) && (|s| == 1 <==> n < 10) && (|s| > 1 ==> s[0] != '0')
  {
    if n >= 10 {
      DecimalShape(n / 10);
    }
  }

  /** The value of a string of decimal digits (most significant first). */
  function DigitsValue(s: string): nat
  {
    if s == [] then 0
    else DigitsValue(s[..|s| - 1]) * 10 + DigitValue(s[|s| - 1])
  }

  function DigitValue(c: char): nat
  {
    if IsDigit(c) then (c as int) - ('0' as int) else 0
  }

  lemma {:induction false} DecimalRoundTrip(n: nat)
    ensures DigitsValue(Decimal(n)) == n
  {
    if n >= 10 {
      var s := Decimal(n);
      assert s[..|s| - 1] == Decimal(n / 10);
      DecimalRoundTrip(n / 10);
    }
  }

  /** Seconds padded with a leading "0" below 10. */
  function TwoDigits(sec: nat): string
    requires sec < 60
  {
    if sec < 10 then "0" + Decimal(sec) else Decimal(sec)
  }

  /** The seconds text is always exactly two digits, worth the seconds. */
  lemma TwoDigitsValue(sec: nat)
    requires sec < 60
    ensures var s := TwoDigits(sec);
      |s| == 2 && AllDigits(s) && DigitsValue(s) == sec
  {
    DecimalShape(sec);
    DecimalRoundTrip(sec);
    var s := TwoDigits(sec);
    if sec < 10 {
      assert s[..1] == "0";
      assert DigitsValue(s[..1]) == 0;
    } else {
      DecimalShape(sec / 10);
    }
  }

  /** The countdown text: whole minutes, a colon, then two-digit seconds. */
  function Format(count: nat): string
  {
    Decimal(count / 60) + ":" + TwoDigits(count % 60)
  }

  /** Reads back a countdown text "M:SS" (seconds below 60) into seconds. */
  function ParseClock(s: string): Option<nat>
  {
    if |s| >= 4 && s[|s| - 3] == ':' && AllDigits(s[..|s| - 3]) && AllDigits(s[|s| - 2..])
       && DigitsValue(s[|s| - 2..]) < 60
    then Some(DigitsValue(s[..|s| - 3]) * 60 + DigitsValue(s[|s| - 2..]))
    else None
  }

  /** The countdown text is the decimal minutes `count / 60`, a colon third
      from the end, and two digits worth `count % 60 < 60`; so
      `min * 60 + sec == count`. */
  lemma FormatParts(count: nat)
    ensures var s := Format(count);
      && |s| >= 4 && s[|s| - 3] == ':'
      && s[..|s| - 3] == Decimal(count / 60) && AllDigits(s[..|s| - 3])
      && AllDigits(s[|s| - 2..])
      && DigitsValue(s[..|s| - 3]) == count / 60
      && DigitsValue(s[|s| - 2..]) == count % 60 < 60
  {
    var s := Format(count);
    var m, t := Decimal(count / 60), TwoDigits(count % 60);
    DecimalShape(count / 60);
    TwoDigitsValue(count % 60);
    assert s[..|s| - 3] == m && s[|s| - 2..] == t;
    DecimalRoundTrip(count / 60);
  }

  lemma FormatRoundTrip(count: nat)
    ensures ParseClock(Format(count)) == Some(count)
  {
    FormatParts(count);
  }

  lemma FormatInjective(a: nat, b: nat)
    requires Format(a) == Format(b)
    ensures a == b
  {
    FormatRoundTrip(a);
    FormatRoundTrip(b);
  }

  lemma FormatExamples()
    ensures Format(125) == "2:05"
    ensures Format(600) == "10:00"
    ensures Format(59) == "0:59"
    ensures Format(0) == "0:00"
  {
    assert Decimal(0) == "0" && Decimal(2) == "2" && Decimal(5) == "5";
    assert Decimal(10) == Decimal(1) + "0" == "10";
    assert TwoDigits(0) == "00" && TwoDigits(5) == "05" && TwoDigits(59) == "59";
  }

  /** What each interval shows when it starts. */
  lemma DurationTexts()
    ensures Format(Duration(Work)) == "25:00"
    ensures Format(Duration(ShortBreak)) == "5:00"
    ensures Format(Duration(LongBreak)) == "20:00"
  {
    assert TwoDigits(0) == "00";
    assert Decimal(25) == Decimal(2) + "5" == "25";
    assert Decimal(20) == Decimal(2) + "0" == "20";
  }

  // ---------------------------------------------------------------------------
  // Check marks
  // ---------------------------------------------------------------------------

  /** The check-mark glyph, treated as one opaque character. */
  const Check: char := '\U{2705}'

  /** `n` check marks. */
  function Marks(n: nat): (r: string)
    ensures |r| == n
    ensures forall i :: 0 <= i < |r| ==> r[i] == Check
  {
    if n == 0 then "" else Marks(n - 1) + [Check]
  }

  /** Builds the check-mark text one glyph per completed work session. */
  method BuildMarks(sessions: nat) returns (mark: string)
    ensures mark == Marks(sessions)
  {
    mark := "";
    for i := 0 to sessions
      invariant mark == Marks(i)
    {
      mark := mark + [Check];
    }
  }

  /** Number of work intervals among repetitions 1 .. reps-1, that is, the
      work intervals whose successor interval has already started. */
  function CompletedWork(reps: nat): nat
  {
    if reps <= 1 then 0
    else CompletedWork(reps - 1) + (if IntervalFor(reps - 1) == Work then 1 else 0)
  }

  /** `reps / 2` is exactly the number of completed work intervals. */
  lemma {:induction false} CompletedWorkIsHalf(reps: nat)
    ensures CompletedWork(reps) == reps / 2
  {
    if reps > 1 {
      CompletedWorkIsHalf(reps - 1);
      WorkIffOdd(reps - 1);
    }
  }

  // ---------------------------------------------------------------------------
  // Scheduler state and its transitions
  // ---------------------------------------------------------------------------

  /** Everything the scheduler shows or keeps: the counter, the countdown text,
      the title and its colour, the check marks, and the pending tick (the count
      it will fire with), if any. */
  datatype State = State(
    reps: nat,
    display: string,
    title: string,
    colour: Colour,
    marks: string,
    pending: Option<nat>)

  /** The state at program start. */
  const Initial: State := State(0, "00:00", "Timer", Green, "", None)

  /** startTimer: bump the counter, count down the chosen interval, then set
      the title and its colour. */
  function StartSpec(s: State): State
    decreases 1
  {
    var reps := s.reps + 1;
    var k := IntervalFor(reps);
    var t := CountDownSpec(s.(reps := reps), Duration(k));
    t.(title := Title(k), colour := ColourOf(k))
  }

  /** countDown: show `count`; above zero schedule the next tick, at zero start
      the next interval and redraw `reps / 2` check marks. */
  function CountDownSpec(s: State, count: nat): State
    decreases if count == 0 then 2 else 0
  {
    var shown := s.(display := Format(count));
    if count > 0 then shown.(pending := Some(count - 1))
    else
      var t := StartSpec(shown);
      t.(marks := Marks(t.reps / 2))
  }

  /** The pending tick runs: its slot is consumed and countDown runs with its count. */
  function FireSpec(s: State): State
    requires s.pending.Some?
  {
    CountDownSpec(s.(pending := None), s.pending.value)
  }

  /** resetTimer: cancel the tick, clear the texts and the counter; the title
      colour is left as it was. */
  function ResetSpec(s: State): State
  {
    s.(reps := 0, display := "00:00", title := "Timer", marks := "", pending := None)
  }

  /** The states reachable between events: idle (as at start or after reset),
      or counting down the interval that `reps` selects. */
  ghost predicate Valid(s: State)
  {
    match s.pending
    case None =>
      s.reps == 0 && s.display == "00:00" && s.title == "Timer" && s.marks == ""
    case Some(next) =>
      var k := IntervalFor(s.reps);
      && s.reps >= 1
      && next < Duration(k)
      && s.display == Format(next + 1)
      && s.title == Title(k)
      && s.colour == ColourOf(k)
      && s.marks == Marks(s.reps / 2)
  }

  lemma InitialValid()
    ensures Valid(Initial) && Initial.pending.None?
  {
  }

  /** Reset reaches the idle state from any state, and a second reset changes nothing. */
  lemma ResetClears(s: State)
    ensures var t := ResetSpec(s);
      Valid(t) && t.reps == 0 && t.pending.None? && t.marks == ""
      && t.colour == s.colour && ResetSpec(t) == t
  {
  }

  /** Before the first start no tick has been scheduled; a reset there leaves
      the start-up state exactly as it is. */
  lemma ResetBeforeStart()
    ensures ResetSpec(Initial) == Initial
  {
  }

  /** Repetition `reps` just started: its interval counts down from the full
      length (the full length shown, a tick for one second less pending),
      with its title and colour, and `reps / 2` check marks. */
  function Started(reps: nat): State
  {
    var k := IntervalFor(reps);
    var d := Duration(k);
    State(reps, Format(d), Title(k), ColourOf(k), Marks(reps / 2), Some(d - 1))
  }

  /** Every repetition, once started, is a valid counting state. */
  lemma StartedValid(reps: nat)
    requires reps >= 1
    ensures Valid(Started(reps))
  {
  }

  /** startTimer raises the counter by exactly one and starts the interval it
      selects; it leaves the check marks as they were. */
  lemma StartCounts(s: State)
    ensures StartSpec(s) == Started(s.reps + 1).(marks := s.marks)
  {
  }

  /** Start from idle: the first repetition is a 25-minute work interval. */
  lemma StartFromIdle(s: State)
    requires Valid(s) && s.pending.None?
    ensures StartSpec(s) == Started(1)
    ensures Started(1) == State(1, "25:00", "Work", Green, "", Some(1499))
  {
    StartCounts(s);
    DurationTexts();
  }

  /** A tick above zero shows its count and schedules the next one; nothing else changes. */
  lemma TickAboveZero(s: State)
    requires s.pending.Some? && s.pending.value > 0
    ensures var c := s.pending.value;
      FireSpec(s) == s.(display := Format(c), pending := Some(c - 1))
  {
  }

  /** A tick above zero keeps a valid state valid. */
  lemma TickAboveZeroValid(s: State)
    requires Valid(s) && s.pending.Some? && s.pending.value > 0
    ensures Valid(FireSpec(s))
  {
    TickAboveZero(s);
  }

  /** The zero tick starts the next repetition, whatever the state before it:
      the counter grows by one and the check marks are redrawn for it. */
  lemma TickAtZero(s: State)
    requires s.pending == Some(0)
    ensures FireSpec(s) == Started(s.reps + 1)
  {
    var shown := s.(pending := None, display := Format(0));
    var t := StartSpec(shown);
    assert FireSpec(s) == t.(marks := Marks(t.reps / 2));
    StartCounts(shown);
  }

  /** Every tick keeps the scheduler valid and leaves exactly one tick pending. */
  lemma FireKeepsValid(s: State)
    requires Valid(s) && s.pending.Some?
    ensures Valid(FireSpec(s)) && FireSpec(s).pending.Some?
  {
    FireSchedules(s);
    if s.pending.value > 0 {
      TickAboveZeroValid(s);
    } else {
      ZeroTickValid(s);
    }
  }

  /** The zero tick always leaves a valid state. */
  lemma ZeroTickValid(s: State)
    requires s.pending == Some(0)
    ensures Valid(FireSpec(s))
  {
    TickAtZero(s);
    StartedValid(s.reps + 1);
  }

  /** Every tick, valid state or not, leaves exactly one tick pending. */
  lemma FireSchedules(s: State)
    requires s.pending.Some?
    ensures FireSpec(s).pending.Some?
  {
    if s.pending.value > 0 { TickAboveZero(s); } else { TickAtZero(s); }
  }

  /** `n` consecutive ticks of a running countdown. */
  ghost function Run(s: State, n: nat): (t: State)
    requires s.pending.Some?
    ensures t.pending.Some?
    decreases n
  {
    if n == 0 then s
    else
      FireSchedules(s);
      Run(FireSpec(s), n - 1)
  }

  /** One step of `Run`, kept apart so that proofs about whole intervals stay small. */
  lemma RunStep(s: State, n: nat)
    requires s.pending.Some? && n > 0
    ensures FireSpec(s).pending.Some? && Run(s, n) == Run(FireSpec(s), n - 1)
  {
    FireSchedules(s);
  }

  /** Running `a + b` ticks is running `a` ticks, then `b` more. */
  lemma {:induction false} RunAdd(s: State, a: nat, b: nat)
    requires s.pending.Some?
    ensures Run(s, a).pending.Some? && Run(s, a + b) == Run(Run(s, a), b)
    decreases a
  {
    if a > 0 {
      RunStep(s, a + b);
      RunStep(s, a);
      RunAdd(FireSpec(s), a - 1, b);
    }
  }

  /** With `c` seconds left, each of the first `c` ticks changes only the
      display and the pending count: after `i` of them the display shows
      `c - i + 1` seconds and the tick for `c - i` is pending. */
  lemma {:induction false} TicksCountDown(s: State, i: nat)
    requires s.pending.Some? && i <= s.pending.value
    ensures var c := s.pending.value;
      Run(s, i) == if i == 0 then s
                   else s.(display := Format(c - i + 1), pending := Some(c - i))
    decreases i
  {
    if i > 0 {
      var c := s.pending.value;
      RunStep(s, i);
      TickAboveZero(s);
      TicksCountDown(FireSpec(s), i - 1);
    }
  }

  /** With `c` seconds left, `c + 1` ticks end the interval: the last one
      starts repetition `reps + 1` at its full length, with its title, colour
      and check marks. */
  lemma {:induction false} IntervalCompletes(s: State)
    requires s.pending.Some?
    ensures Run(s, s.pending.value + 1) == Started(s.reps + 1)
    decreases s.pending.value
  {
    var c := s.pending.value;
    RunStep(s, c + 1);
    var f := FireSpec(s);
    if c == 0 {
      assert Run(f, 0) == f;
      TickAtZero(s);
    } else {
      TickAboveZero(s);
      IntervalCompletes(f);
    }
  }

  /** Ticks from the start of repetition `r` until repetition `n` begins: the
      full lengths of repetitions `r .. n-1`. */
  function TicksBetween(r: nat, n: nat): nat
    decreases n
  {
    if n <= r then 0 else TicksBetween(r, n - 1) + Duration(IntervalFor(n - 1))
  }

  /** If `m` ticks lead to the start of repetition `k - 1`, then `m` more
      ticks than that repetition lasts lead to the start of repetition `k`. */
  lemma ElapseInterval(s: State, m: nat, k: nat)
    requires s.pending.Some? && k >= 1 && Run(s, m) == Started(k - 1)
    ensures Run(s, m + Duration(IntervalFor(k - 1))) == Started(k)
  {
    var t := Started(k - 1);
    var d := Duration(IntervalFor(k - 1));
    assert t.reps + 1 == k && t.pending.value + 1 == d;
    IntervalCompletes(t);
    RunAdd(s, m, d);
  }



  /** Intervals run out one after another: from the start of repetition `r`,
      `TicksBetween(r, n)` ticks lead to the start of repetition `n`. */
  lemma {:induction false} RunsThrough(r: nat, n: nat)
    requires 1 <= r <= n
    ensures Run(Started(r), TicksBetween(r, n)) == Started(n)
    decreases n
  {
    var first := Started(r);
    if n == r {
      assert TicksBetween(r, n) == 0;
      assert Run(first, 0) == first;
    } else {
      var m := TicksBetween(r, n - 1);
      assert TicksBetween(r, n) == m + Duration(IntervalFor(n - 1));
      RunsThrough(r, n - 1);
      ElapseInterval(first, m, n);
    }
  }

  /** In every reachable state the check marks count the completed work intervals. */
  lemma MarksCountCompletedWork(s: State)
    requires Valid(s)
    ensures |s.marks| == CompletedWork(s.reps)
    ensures forall i :: 0 <= i < |s.marks| ==> s.marks[i] == Check
  {
    CompletedWorkIsHalf(s.reps);
  }

  /** Start, then let the first work interval run out: the second repetition is
      a five-minute break in pink, and one check mark is shown. */
  lemma FirstBreak()
    ensures Run(StartSpec(Initial), 1500) == Started(2)
    ensures Started(2) == State(2, "5:00", "Break", Pink, [Check], Some(299))
  {
    StartFromIdle(Initial);
    IntervalCompletes(Started(1));
    assert Marks(1) == [Check];
    DurationTexts();
  }

  /** Start once and let every interval run out: after `TicksBetween(1, n)`
      ticks repetition `n` has just begun, and one check mark is shown per
      completed work interval. */
  lemma FromStart(n: nat)
    requires n >= 1
    ensures var t := Run(StartSpec(Initial), TicksBetween(1, n));
      t == Started(n) && |t.marks| == CompletedWork(n)
  {
    StartFromIdle(Initial);
    RunsThrough(1, n);
    CompletedWorkIsHalf(n);
  }

  /** Start once and let the first four intervals run out (an hour of
      ticks): the fifth, a work interval, is running and two check marks are
      shown. */
  lemma TwoMarksAfterFour()
    ensures TicksBetween(1, 5) == 3600
    ensures var t := Run(StartSpec(Initial), 3600);
      t.reps == 5 && t.title == "Work" && t.marks == [Check, Check]
  {
    StartFromIdle(Initial);
    RunsThrough(1, 5);
    assert Marks(2) == [Check, Check];
  }


  /** The scheduler as the program holds it: one mutable record, updated by
      the start button, the scheduled tick and the reset button. */
  class Timer {
    var reps: nat
    var display: string
    var title: string
    var colour: Colour
    var marks: string
    var pending: Option<nat>

    function Snapshot(): State
      reads this
    {
      State(reps, display, title, colour, marks, pending)
    }

    constructor ()
      ensures Snapshot() == Initial
    {
      reps, display, title, colour, marks, pending := 0, "00:00", "Timer", Green, "", None;
    }

    /** startTimer. Starting while a countdown is already running is outside
        the model, hence the requirement that no tick is pending. */
    method Start()
      requires pending.None?
      modifies this
      decreases 1
      ensures Snapshot() == StartSpec(old(Snapshot()))
      ensures Valid(old(Snapshot())) ==> Valid(Snapshot()) && pending.Some?
    {
      ghost var before := Snapshot();
      reps := reps + 1;
      var kind := IntervalFor(reps);
      CountDown(Duration(kind));
      title := Title(kind);
      colour := ColourOf(kind);
      if Valid(before) {
        StartFromIdle(before);
        StartedValid(1);
      }
    }

    /** countDown. At zero it starts the next interval itself, so no tick may
        be pending then. */
    method CountDown(count: nat)
      requires count == 0 ==> pending.None?
      modifies this
      decreases if count == 0 then 2 else 0
      ensures Snapshot() == CountDownSpec(old(Snapshot()), count)
    {
      display := Format(count);
      if count > 0 {
        pending := Some(count - 1);
      } else {
        Start();
        marks := BuildMarks(reps / 2);
      }
    }

    /** The scheduled tick runs with the count it was scheduled for. */
    method Fire()
      requires pending.Some?
      modifies this
      ensures Snapshot() == FireSpec(old(Snapshot()))
      ensures Valid(old(Snapshot())) ==> Valid(Snapshot()) && pending.Some?
    {
      ghost var before := Snapshot();
      var count := pending.value;
      pending := None;
      CountDown(count);
      if Valid(before) { FireKeepsValid(before); }
    }

    /** resetTimer. */
    method Reset()
      modifies this
      ensures Snapshot() == ResetSpec(old(Snapshot()))
      ensures Valid(Snapshot())
    {
      pending := None;
      display := "00:00";
      title := "Timer";
      marks := "";
      reps := 0;
    }
  }
}
