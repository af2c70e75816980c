/** The divider and the programmable counter. */
module Timer {
  import opened Bytes
  import opened Division

  datatype Speed = Normal | Double

  /** A tick threshold: halved in double speed. */
  function Shifted(n: nat, speed: Speed): nat {
    match speed
    case Normal => n
    case Double => n / 2
  }

  function RtcIncrement(speed: Speed): (n: nat)
    ensures n > 0
  {
    Shifted(512, speed)
  }

  /** Ticks per count, by the frequency bits of the control register. */
  function Timeout(control: bv8, speed: Speed): (n: nat)
    ensures 0 < n <= 1024
  {
    Shifted(if control & 3 == 0 then 1024 else if control & 3 == 1 then 16
            else if control & 3 == 2 then 64 else 256, speed)
  }

  const TIMER_INTERRUPT: bv8 := 0x04

  predicate Enabled(control: bv8) {
    control & 4 != 0
  }

  datatype State = State(
    divider: byte, counter: byte, modulo: byte, control: bv8,
    ticks: nat, rtc: nat, speed: Speed,
    flags: bv8,           // the interrupt flags register
    resetRequested: bool) // the game wrote the divider register

  // ---- The counter -------------------------------------------------------------------------------

  /** One count of the counter: past 0xFF it restarts at the modulo. */
  function CountOne(counter: byte, modulo: byte): byte {
    if counter == 0xFF then modulo else counter + 1
  }

  function CountMany(counter: byte, modulo: byte, k: nat): byte
    decreases k
  {
    if k == 0 then counter else CountOne(CountMany(counter, modulo, k - 1), modulo)
  }

  /** `k` counts at once. */
  function Count(counter: byte, modulo: byte, k: nat): byte {
    if counter + k < 0x100 then counter + k
    else modulo + Rest(counter + k - 0x100, 0x100 - modulo)
  }

  lemma CountNext(counter: byte, modulo: byte, k: nat)
    ensures Count(counter, modulo, k + 1) == CountOne(Count(counter, modulo, k), modulo)
  {
    if counter + k >= 0x100 {
      Sum(counter + k - 0x100, 1, 0x100 - modulo);
    }
  }

  /** The closed form is the iterated count. */
  lemma {:induction false} CountIsIterated(counter: byte, modulo: byte, k: nat)
    ensures Count(counter, modulo, k) == CountMany(counter, modulo, k)
  {
    if k == 0 {
    } else {
      CountIsIterated(counter, modulo, k - 1);
      CountNext(counter, modulo, k - 1);
    }
  }

  /** Counting in two steps. */
  lemma CountSum(counter: byte, modulo: byte, j: nat, k: nat)
    ensures Count(Count(counter, modulo, j), modulo, k) == Count(counter, modulo, j + k)
    ensures counter + j < 0x100 ==>
              (Count(counter, modulo, j) + k >= 0x100 <==> counter + j + k >= 0x100)
  {
    CountIsIterated(counter, modulo, j);
    CountIsIterated(counter, modulo, j + k);
    CountIsIterated(Count(counter, modulo, j), modulo, k);
    CountManySum(counter, modulo, j, k);
  }

  lemma {:induction false} CountManySum(counter: byte, modulo: byte, j: nat, k: nat)
    ensures CountMany(CountMany(counter, modulo, j), modulo, k) == CountMany(counter, modulo, j + k)
    decreases k
  {
    if k == 0 {
    } else {
      CountManySum(counter, modulo, j, k - 1);
    }
  }

  // ---- One call ----------------------------------------------------------------------------------

  /** The divider after `ticks` more ticks. */
  function ElapseDivider(t: State, ticks: nat): State {
    var divider, rtc := if t.resetRequested then 0 else t.divider, (if t.resetRequested then 0 else t.rtc) + ticks;
    t.(divider := Wrapped(divider, Whole(rtc, RtcIncrement(t.speed))),
       rtc := Rest(rtc, RtcIncrement(t.speed)), resetRequested := false)
  }

  /** The eight-bit divider `n` increments later. */
  function Wrapped(divider: byte, n: nat): byte {
    (divider + n) % 0x100
  }

  /** `k` counts of the counter, with the interrupt they request. */
  function Counted(t: State, k: nat): State {
    t.(counter := Count(t.counter, t.modulo, k),
       flags := if t.counter + k >= 0x100 then t.flags | TIMER_INTERRUPT else t.flags)
  }

  /** The counter after `ticks` more ticks. */
  function ElapseCounter(t: State, ticks: nat): State {
    if !Enabled(t.control) then t else Drained(t, ticks, Timeout(t.control, t.speed))
  }

  /** The same for one threshold. */
  function Drained(t: State, ticks: nat, timeout: nat): State
    requires timeout > 0
  {
    Settled(t, Whole(t.ticks + ticks, timeout), Rest(t.ticks + ticks, timeout))
  }

  /** `k` counts made and `rest` ticks left. */
  function Settled(t: State, k: nat, rest: nat): (u: State)
    ensures u.ticks == rest && u.control == t.control && u.speed == t.speed
  {
    Counted(t, k).(ticks := rest)
  }

  function Elapse(t: State, ticks: nat): State {
    ElapseCounter(ElapseDivider(t, ticks), ticks)
  }

  class TimerModule {
    var divider: byte
    var counter: byte
    var modulo: byte
    var control: bv8
    var ticks: nat
    var rtc: nat
    var speed: Speed
    var flags: bv8
    var resetRequested: bool

    function Value(): State
      reads this
    {
      State(divider, counter, modulo, control, ticks, rtc, speed, flags, resetRequested)
    }

    /** The 16-bit tick counters are far from overflowing. */
    predicate Valid()
      reads this
    {
      ticks < 1024 && rtc < 512
    }

    constructor ()
      ensures Valid() && Value() == State(0, 0, 0, 0, 0, 0, Normal, flags, resetRequested)
    {
      divider, counter, modulo, control := 0, 0, 0, 0;
      ticks, rtc, speed := 0, 0, Normal;
    }

    method CycleDivider(elapsed: byte)
      requires Valid()
      modifies this`rtc, this`divider, this`resetRequested
      ensures Valid() && Value() == ElapseDivider(old(Value()), elapsed)
    {
      if resetRequested {
        divider, rtc := 0, 0;
        resetRequested := false;
      }
      rtc := rtc + elapsed;
      var increment := RtcIncrement(speed);
      ghost var start, total := divider, rtc;
      while rtc >= increment
        invariant Wrapped(divider, Whole(rtc, increment)) == Wrapped(start, Whole(total, increment))
        invariant Rest(rtc, increment) == Rest(total, increment) && !resetRequested
      {
        WrappedSum(divider, 1, Whole(rtc - increment, increment));
        divider := Wrapped(divider, 1);
        rtc := rtc - increment;
      }
      assert Whole(rtc, increment) == 0 && Wrapped(divider, 0) == divider;
    }

    /** One count of the counter register. */
    method CountOnce()
      modifies this`counter, this`flags
      ensures counter == CountOne(old(counter), modulo)
      ensures flags == if old(counter) == 0xFF then old(flags) | TIMER_INTERRUPT else old(flags)
    {
      if counter == 0xFF {
        flags := flags | TIMER_INTERRUPT;
        counter := modulo;
      } else {
        counter := counter + 1;
      }
    }

    /** The draining loop for one threshold. */
    method Drain(timeout: nat)
      requires timeout > 0
      modifies this`ticks, this`counter, this`flags
      ensures ticks == Rest(old(ticks), timeout)
      ensures var t := Counted(old(Value()), Whole(old(ticks), timeout)); counter == t.counter && flags == t.flags
    {
      ghost var k: nat, start := 0, old(Value());
      while ticks >= timeout
        invariant Rest(ticks, timeout) == Rest(start.ticks, timeout)
        invariant Whole(ticks, timeout) + k == Whole(start.ticks, timeout)
        invariant counter == Counted(start, k).counter && flags == Counted(start, k).flags
      {
        CountedNext(start, k);
        CountOnce();
        ticks := ticks - timeout;
        k := k + 1;
      }
      assert k == Whole(start.ticks, timeout);
    }

    method CycleCounter(elapsed: byte)
      requires Valid()
      modifies this`ticks, this`counter, this`flags
      ensures Valid() && Value() == ElapseCounter(old(Value()), elapsed)
    {
      if control & 4 == 0 { return; }
      ticks := ticks + elapsed;
      Drain(Timeout(control, speed));
    }

    method Cycle(elapsed: byte)
      requires Valid()
      modifies this
      ensures Valid() && Value() == Elapse(old(Value()), elapsed)
    {
      CycleDivider(elapsed);
      CycleCounter(elapsed);
    }
  }

  lemma CountedNext(t: State, k: nat)
    ensures var u := Counted(t, k);
            Counted(t, k + 1) == if u.counter == 0xFF then u.(counter := t.modulo, flags := u.flags | TIMER_INTERRUPT)
                                 else u.(counter := u.counter + 1)
  {
    CountNext(t.counter, t.modulo, k);
    Requested(t.flags);
  }

  lemma CountedSum(t: State, j: nat, k: nat)
    ensures Counted(Counted(t, j), k) == Counted(t, j + k)
  {
    CountSum(t.counter, t.modulo, j, k);
    Requested(t.flags);
  }

  lemma WrappedSum(divider: byte, m: nat, n: nat)
    ensures Wrapped(Wrapped(divider, m), n) == Wrapped(divider, m + n)
  {
  }

  lemma Requested(f: bv8)
    ensures (f | TIMER_INTERRUPT) | TIMER_INTERRUPT == f | TIMER_INTERRUPT
  {
  }

  // ---- Sequences of calls ------------------------------------------------------------------------

  function ElapseAll(t: State, calls: seq<byte>): State
    decreases |calls|
  {
    if calls == [] then t else ElapseAll(Elapse(t, calls[0]), calls[1..])
  }

  function Total(calls: seq<byte>): nat {
    if calls == [] then 0 else calls[0] + Total(calls[1..])
  }

  lemma DividerSum(t: State, a: nat, b: nat)
    ensures ElapseDivider(ElapseDivider(t, a), b) == ElapseDivider(t, a + b)
  {
    var increment := RtcIncrement(t.speed);
    var divider, rtc := if t.resetRequested then 0 else t.divider, (if t.resetRequested then 0 else t.rtc) + a;
    Sum(rtc, b, increment);
    WrappedSum(divider, Whole(rtc, increment), Whole(Rest(rtc, increment) + b, increment));
  }

  lemma CounterSum(t: State, a: nat, b: nat)
    ensures ElapseCounter(ElapseCounter(t, a), b) == ElapseCounter(t, a + b)
  {
    if Enabled(t.control) {
      DrainedSum(t, a, b, Timeout(t.control, t.speed));
    }
  }

  lemma DrainedSum(t: State, a: nat, b: nat, timeout: nat)
    requires timeout > 0
    ensures Drained(Drained(t, a, timeout), b, timeout) == Drained(t, a + b, timeout)
  {
    var j, rest := Whole(t.ticks + a, timeout), Rest(t.ticks + a, timeout);
    assert t.ticks + a + b == t.ticks + (a + b);
    Sum(t.ticks + a, b, timeout);
    SettledTwice(t, j, rest, Whole(rest + b, timeout), Rest(rest + b, timeout));
  }

  lemma SettledTwice(t: State, j: nat, r: nat, k: nat, rest: nat)
    ensures Settled(Settled(t, j, r), k, rest) == Settled(t, j + k, rest)
  {
    CountedSum(t, j, k);
    CountedKeepsTicks(Counted(t, j), r, k);
  }

  lemma CountedKeepsTicks(t: State, ticks: nat, k: nat)
    ensures Counted(t.(ticks := ticks), k) == Counted(t, k).(ticks := ticks)
  {
  }

  /** The divider and the counter do not touch each other. */
  lemma DividerAndCounterCommute(t: State, a: nat, b: nat)
    ensures ElapseDivider(ElapseCounter(t, a), b) == ElapseCounter(ElapseDivider(t, b), a)
  {
  }

  lemma ElapseSum(t: State, a: nat, b: nat)
    ensures Elapse(Elapse(t, a), b) == Elapse(t, a + b)
  {
    DividerAndCounterCommute(ElapseDivider(t, a), a, b);
    DividerSum(t, a, b);
    CounterSum(ElapseDivider(t, a + b), a, b);
  }

  /** Splitting or merging calls changes nothing: any calls amount to one with the total of their ticks. */
  lemma {:induction false} CallsMerge(t: State, calls: seq<byte>)
    requires calls != []
    ensures ElapseAll(t, calls) == Elapse(t, Total(calls))
    decreases |calls|
  {
    if |calls| == 1 {
      assert calls[1..] == [] && Total(calls) == calls[0];
    } else {
      CallsMerge(Elapse(t, calls[0]), calls[1..]);
      ElapseSum(t, calls[0], Total(calls[1..]));
    }
  }

  /** The closed form: with total ticks T, k = (ticks + T) / timeout counts are made, the counter is then
      counter + k, or past 0xFF runs through the values from the modulo on, the interrupt is requested iff
      it passed 0xFF, and the remainder is kept. */
  lemma TimerClosedForm(t: State, calls: seq<byte>)
    requires calls != [] && Enabled(t.control) && !t.resetRequested
    ensures var u, timeout, increment := ElapseAll(t, calls), Timeout(t.control, t.speed), RtcIncrement(t.speed);
            var k := (t.ticks + Total(calls)) / timeout;
            && u.ticks == (t.ticks + Total(calls)) % timeout
            && u.counter == (if t.counter + k < 0x100 then t.counter + k
                             else t.modulo + (t.counter + k - 0x100) % (0x100 - t.modulo))
            && u.flags == (if t.counter + k >= 0x100 then t.flags | TIMER_INTERRUPT else t.flags)
            && u.divider == (t.divider + (t.rtc + Total(calls)) / increment) % 0x100
            && u.rtc == (t.rtc + Total(calls)) % increment
  {
    CallsMerge(t, calls);
    ElapseIsQuotient(t, Total(calls));
  }

  lemma ElapseIsQuotient(t: State, ticks: nat)
    requires Enabled(t.control) && !t.resetRequested
    ensures var u, timeout, increment := Elapse(t, ticks), Timeout(t.control, t.speed), RtcIncrement(t.speed);
            var k := (t.ticks + ticks) / timeout;
            && u.ticks == (t.ticks + ticks) % timeout
            && u.counter == (if t.counter + k < 0x100 then t.counter + k
                             else t.modulo + (t.counter + k - 0x100) % (0x100 - t.modulo))
            && u.flags == (if t.counter + k >= 0x100 then t.flags | TIMER_INTERRUPT else t.flags)
            && u.divider == (t.divider + (t.rtc + ticks) / increment) % 0x100
            && u.rtc == (t.rtc + ticks) % increment
  {
    var timeout, increment := Timeout(t.control, t.speed), RtcIncrement(t.speed);
    var k := Whole(t.ticks + ticks, timeout);
    IsDivision(t.ticks + ticks, timeout);
    IsDivision(t.rtc + ticks, increment);
    CountIsRemainder(t.counter, t.modulo, k);
  }

  lemma CountIsRemainder(counter: byte, modulo: byte, k: nat)
    ensures Count(counter, modulo, k) ==
            if counter + k < 0x100 then counter + k else modulo + (counter + k - 0x100) % (0x100 - modulo)
  {
    if counter + k >= 0x100 {
      IsDivision(counter + k - 0x100, 0x100 - modulo);
    }
  }

  // ---- Rates ---------------------------------------------------------------------------------------

  /** Ticks per count and per divider increment, in both speeds. */
  lemma Thresholds(control: bv8)
    ensures Timeout(control, Normal) == [1024, 16, 64, 256][(control & 3) as int]
    ensures Timeout(control, Double) == [512, 8, 32, 128][(control & 3) as int]
    ensures RtcIncrement(Normal) == 512 && RtcIncrement(Double) == 256
    ensures Enabled(control) <==> control & 0x04 != 0
  {
    LowTwoBits(control);
  }

  lemma LowTwoBits(control: bv8)
    ensures (control & 3) as int in {0, 1, 2, 3}
    ensures ((control & 3) as int == 0 <==> control & 3 == 0) && ((control & 3) as int == 1 <==> control & 3 == 1)
    ensures ((control & 3) as int == 2 <==> control & 3 == 2) && ((control & 3) as int == 3 <==> control & 3 == 3)
  {
  }

  /** In 1024 ticks of normal speed, and in 512 of double speed, the four selections count 1, 64, 16 and 4
      times, and the divider advances by two. */
  lemma CountsIn1024Ticks(t: State)
    requires t.control & 0x04 != 0 && t.counter == t.divider == 0 && t.ticks == t.rtc == 0 && !t.resetRequested
    ensures var u := Elapse(t, if t.speed == Normal then 1024 else 512);
            && u.counter == [1, 64, 16, 4][(t.control & 3) as int] && u.ticks == 0
            && u.divider == 2 && u.rtc == 0 && u.flags == t.flags
  {
    var ticks := if t.speed == Normal then 1024 else 512;
    var k := [1, 64, 16, 4][(t.control & 3) as int];
    Thresholds(t.control);
    LowTwoBits(t.control);
    Quotient(ticks, Timeout(t.control, t.speed), k);
    Quotient(ticks, RtcIncrement(t.speed), 2);
    ElapseIsQuotient(t, ticks);
  }

  lemma Quotient(a: nat, b: nat, q: nat)
    requires b > 0 && a == b * q
    ensures a / b == q && a % b == 0
  {
    Unique(b, q, 0, a / b, a % b);
  }

  /** A stopped counter counts nothing and requests nothing, whatever its selection. */
  lemma StoppedCounterStays(t: State, ticks: nat)
    requires t.control & 0x04 == 0
    ensures var u := Elapse(t, ticks); u.counter == t.counter && u.ticks == t.ticks && u.flags == t.flags
  {
  }

  /** Passing 0xFF requests the interrupt of bit 2 and no other, and nothing else requests one. */
  lemma OverflowRequestsBitTwo(t: State, ticks: nat)
    requires t.control & 0x04 != 0 && !t.resetRequested
    ensures var k := (t.ticks + ticks) / Timeout(t.control, t.speed);
            Elapse(t, ticks).flags == if t.counter + k >= 0x100 then t.flags | 0x04 else t.flags
  {
    ElapseIsQuotient(t, ticks);
  }

  // ---- Speed independence ------------------------------------------------------------------------

  /** What happens to the timer: the processor passes machine cycles, four ticks each in normal speed and
      two in double speed; the game writes a register or changes the interrupt flags. */
  datatype Event =
    | Cycles(n: nat)
    | WriteControl(bits: bv8)
    | WriteModulo(v: byte)
    | WriteCounter(v: byte)
    | WriteDivider
    | WriteFlags(bits: bv8)

  function Step(t: State, e: Event): State {
    match e
    case Cycles(n) => Elapse(t, n * Shifted(4, t.speed))
    case WriteControl(v) => t.(control := (t.control & 0xF8) | (v & 0x07))
    case WriteModulo(v) => t.(modulo := v)
    case WriteCounter(v) => t.(counter := v)
    case WriteDivider => t.(resetRequested := true)
    case WriteFlags(v) => t.(flags := v)
  }

  function Run(t: State, events: seq<Event>): State
    decreases |events|
  {
    if events == [] then t else Run(Step(t, events[0]), events[1..])
  }

  /** Writing the divider restarts it from zero, whatever it and its residual were. */
  lemma DividerRestarts(t: State, ticks: nat)
    ensures var u := Elapse(Step(t, WriteDivider), ticks);
            var increment := if t.speed == Normal then 512 else 256;
            u.divider == ticks / increment % 0x100 && u.rtc == ticks % increment && !u.resetRequested
  {
    IsDivision(ticks, RtcIncrement(t.speed));
  }

  /** The game reaches the three low bits of the control register, and the counter and modulo whole. */
  lemma RegistersAreWritten(t: State, bits: bv8, v: byte)
    ensures Step(t, WriteControl(bits)).control & 0x07 == bits & 0x07
    ensures Step(t, WriteControl(bits)).control & 0xF8 == t.control & 0xF8
    ensures Step(t, WriteCounter(v)) == t.(counter := v) && Step(t, WriteModulo(v)) == t.(modulo := v)
  {
    MergedControl(t.control, bits);
  }

  lemma MergedControl(control: bv8, bits: bv8)
    ensures ((control & 0xF8) | (bits & 0x07)) & 0x07 == bits & 0x07
    ensures ((control & 0xF8) | (bits & 0x07)) & 0xF8 == control & 0xF8
  {
  }

  /** The same timer at the two speeds: only the residual ticks differ, by a factor of two. */
  predicate Related(a: State, b: State) {
    && a.speed == Normal && b.speed == Double
    && a == b.(speed := Normal, ticks := 2 * b.ticks, rtc := 2 * b.rtc)
  }

  lemma DividerRelated(a: State, b: State, ticks: nat)
    requires Related(a, b)
    ensures Related(ElapseDivider(a, 2 * ticks), ElapseDivider(b, ticks))
  {
    Twice((if b.resetRequested then 0 else b.rtc) + ticks, RtcIncrement(Double));
  }

  lemma CounterRelated(a: State, b: State, ticks: nat)
    requires Related(a, b)
    ensures Related(ElapseCounter(a, 2 * ticks), ElapseCounter(b, ticks))
  {
    TimeoutHalves(b.control);
    Twice(b.ticks + ticks, Timeout(b.control, Double));
  }

  lemma TimeoutHalves(control: bv8)
    ensures Timeout(control, Normal) == 2 * Timeout(control, Double)
  {
  }

  lemma ElapseRelated(a: State, b: State, ticks: nat)
    requires Related(a, b)
    ensures Related(Elapse(a, 2 * ticks), Elapse(b, ticks))
  {
    DividerRelated(a, b, ticks);
    CounterRelated(ElapseDivider(a, 2 * ticks), ElapseDivider(b, ticks), ticks);
  }

  /** The divider, the counter and the timer interrupt depend on machine cycles and register writes, not
      on the speed; the residuals in normal speed are exactly twice those in double speed. */
  lemma {:induction false} SpeedIndependence(a: State, b: State, events: seq<Event>)
    requires Related(a, b)
    ensures Related(Run(a, events), Run(b, events))
    decreases |events|
  {
    if events == [] {
    } else {
      StepRelated(a, b, events[0]);
      SpeedIndependence(Step(a, events[0]), Step(b, events[0]), events[1..]);
    }
  }

  lemma StepRelated(a: State, b: State, e: Event)
    requires Related(a, b)
    ensures Related(Step(a, e), Step(b, e))
  {
    if e.Cycles? {
      ElapseRelated(a, b, e.n * 2);
      assert e.n * 4 == 2 * (e.n * 2);
    }
  }
}
