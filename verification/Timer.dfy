/** The instruction-count timer: how often it is synchronised does not matter, and the next
    deadline is right exactly when it is a 64-bit number. */
module Timer {
  import opened Words

  const COUNT_MOD: nat := 0x1_0000_0000
  const LONG_MOD: nat := 0x1_0000_0000_0000_0000

  /** frac: instructions since the last tick; phase: ticks since the last interrupt; pending: the
      interrupt controller's timer line. */
  datatype Timer = Timer(last: nat, frac: nat, count: nat, phase: nat, prescale: nat, period: nat, on: bool,
                         pending: bool)

  /** The registers' widths, and that no more ticks were counted than instructions ran. */
  ghost predicate Valid(t: Timer) {
    && 0 < t.prescale < COUNT_MOD && t.period < COUNT_MOD && t.count < COUNT_MOD
    && (t.period > 0 ==> t.phase < t.period) && t.phase + t.frac <= t.last < LONG_MOD
  }

  predicate Armed(t: Timer) {
    t.on && t.period > 0
  }

  /** A counter that turns over at m. */
  function Turn(x: nat, a: nat, m: nat): nat
    requires m > 0
  {
    (x + a) % m
  }

  predicate Split(a: nat, m: nat, q: nat, r: nat)
    requires m > 0
  {
    q == a / m && r == a % m
  }

  function Divided(a: nat, m: nat): (d: (nat, nat))
    requires m > 0
    ensures Split(a, m, d.0, d.1)
  {
    (a / m, a % m)
  }

  /** timer_sync when the instruction count is now, in 64-bit sums. */
  function Sync(t: Timer, now: nat): Timer
    requires t.prescale > 0 && now >= t.last
  {
    var tot := Turn(t.frac, now - t.last, LONG_MOD);
    var (ticks, left) := Divided(tot, t.prescale);
    var s := t.(last := now, frac := left, count := Turn(t.count, ticks, COUNT_MOD));
    if Armed(t) then
      var ph := Turn(t.phase, ticks, LONG_MOD);
      s.(pending := t.pending || ph >= t.period, phase := Turn(ph, 0, t.period))
    else s
  }

  /** The same without bounds. */
  function Plain(t: Timer, now: nat): Timer
    requires t.prescale > 0 && now >= t.last
  {
    var tot := t.frac + (now - t.last);
    var ticks := tot / t.prescale;
    var s := t.(last := now, frac := tot % t.prescale, count := Turn(t.count, ticks, COUNT_MOD));
    if Armed(t) then
      s.(pending := t.pending || t.phase + ticks >= t.period, phase := Turn(t.phase, ticks, t.period))
    else s
  }

  // ---- division facts ----

  /** Dividing in two steps, carrying the remainder. */
  lemma DivCarry(a: nat, b: nat, m: nat)
    requires m > 0
    ensures (a + b) / m == a / m + (a % m + b) / m && (a + b) % m == (a % m + b) % m
  {
    var q, r := (a % m + b) / m, (a % m + b) % m;
    assert a == a / m * m + a % m && a % m + b == q * m + r;
    assert a + b == (a / m + q) * m + r;
    ModUnique(a + b, m, a / m + q, r);
  }

  lemma DivAtLeast(a: nat, m: nat, q: nat)
    requires m > 0
    ensures a / m >= q <==> a >= q * m
  {
    assert a == a / m * m + a % m;
    if a / m >= q {
      MulLeq(q, a / m, m);
    } else {
      MulLeq(a / m + 1, q, m);
      assert (a / m + 1) * m == a / m * m + m;
    }
  }

  lemma MulLeq(a: nat, b: nat, m: nat)
    requires a <= b
    ensures a * m <= b * m
  {
  }

  // ---- any number of syncs is one sync ----

  /** Ticks and the remainder are no more than what was divided. */
  lemma Shares(a: nat, m: nat, q: nat, r: nat)
    requires m > 0 && Split(a, m, q, r)
    ensures q + r <= a && r < m
  {
    assert a == a / m * m + a % m;
    MulLeq(1, m, a / m);
  }

  /** No sum of a sync reaches 64 bits. */
  lemma NoWrap(t: Timer, now: nat)
    requires Valid(t) && t.last <= now < LONG_MOD
    ensures Sync(t, now) == Plain(t, now)
  {
    hide Split, Turn, Divided, Plain;
    var tot: nat := t.frac + (now - t.last);
    var (ticks, left) := Divided(tot, t.prescale);
    Shares(tot, t.prescale, ticks, left);
    SyncFields(t, now, tot, ticks, left);
    Within(t.frac, now - t.last, LONG_MOD);
    Within(t.phase, ticks, LONG_MOD);
    if Armed(t) {
      TurnZero(t.phase, ticks, t.period);
    }
  }

  lemma TurnZero(x: nat, a: nat, m: nat)
    requires m > 0
    ensures Turn(x + a, 0, m) == Turn(x, a, m)
  {
  }

  /** A sum that does not reach m does not turn over. */
  lemma Within(x: nat, a: nat, m: nat)
    requires x + a < m
    ensures Turn(x, a, m) == x + a
  {
    ModUnique(x + a, m, 0, x + a);
  }

  lemma TurnBounds(x: nat, a: nat, m: nat)
    requires m > 0
    ensures Turn(x, a, m) < m && Turn(x, a, m) <= x + a
  {
    assert x + a == (x + a) / m * m + (x + a) % m;
  }

  lemma Small(a: nat)
    requires a < LONG_MOD
    ensures a % LONG_MOD == a
  {
  }

  lemma SyncValid(t: Timer, now: nat)
    requires Valid(t) && t.last <= now < LONG_MOD
    ensures Valid(Sync(t, now)) && Sync(t, now).frac < t.prescale
  {
    hide Sync, Plain, Split, Divided, Turn;
    NoWrap(t, now);
    var tot: nat := t.frac + (now - t.last);
    var (ticks, left) := Divided(tot, t.prescale);
    Shares(tot, t.prescale, ticks, left);
    SyncFields(t, now, tot, ticks, left);
    TurnBounds(t.count, ticks, COUNT_MOD);
    if Armed(t) {
      TurnBounds(t.phase, ticks, t.period);
    }
  }

  lemma PlainTwice(t: Timer, a: nat, b: nat)
    requires Valid(t) && t.last <= a <= b
    ensures Plain(Plain(t, a), b) == Plain(t, b)
  {
    hide Plain, Split, Divided, Turn;
    var tot: nat := t.frac + (a - t.last);
    var (t1, f1) := Divided(tot, t.prescale);
    var (t2, f2) := Divided(f1 + (b - a), t.prescale);
    SplitCarry(tot, b - a, t.prescale, t1, f1, t2, f2);
    SyncFields(t, a, tot, t1, f1);
    SyncFields(Plain(t, a), b, f1 + (b - a), t2, f2);
    SyncFields(t, b, tot + (b - a), t1 + t2, f2);
    AddTwice(t.count, t1, t2, COUNT_MOD);
    if Armed(t) {
      AddTwice(t.phase, t1, t2, t.period);
    }
  }

  lemma SplitCarry(a: nat, b: nat, m: nat, q: nat, r: nat, q': nat, r': nat)
    requires m > 0 && Split(a, m, q, r) && Split(r + b, m, q', r')
    ensures Split(a + b, m, q + q', r')
  {
    DivCarry(a, b, m);
  }

  lemma SyncTwice(t: Timer, a: nat, b: nat)
    requires Valid(t) && t.last <= a <= b < LONG_MOD
    ensures Sync(Sync(t, a), b) == Sync(t, b)
  {
    hide Sync, Plain, Valid;
    ValidBounds(t);
    SyncLast(t, a);
    SyncValid(t, a);
    NoWrap(t, a);
    NoWrap(t, b);
    NoWrap(Sync(t, a), b);
    PlainTwice(t, a, b);
  }

  /** Plain once its division is done. */
  lemma SyncFields(t: Timer, now: nat, tot: nat, ticks: nat, left: nat)
    requires t.prescale > 0 && now >= t.last && tot == t.frac + (now - t.last)
    requires Split(tot, t.prescale, ticks, left)
    ensures var s := t.(last := now, frac := left, count := Turn(t.count, ticks, COUNT_MOD));
      Plain(t, now) == if Armed(t) then
          s.(pending := t.pending || t.phase + ticks >= t.period, phase := Turn(t.phase, ticks, t.period))
        else s
  {
  }

  /** Counting modulo m in two steps: the same place, and the wrap is seen in one of them. */
  lemma AddTwice(x: nat, a: nat, b: nat, m: nat)
    requires x < m
    ensures Turn(Turn(x, a, m), b, m) == Turn(x, a + b, m)
    ensures x + (a + b) >= m <==> x + a >= m || Turn(x, a, m) + b >= m
  {
    DivCarry(x + a, b, m);
    if x + a < m {
      ModUnique(x + a, m, 0, x + a);
    }
  }

  predicate Increasing(from: nat, times: seq<nat>)
    decreases |times|
  {
    times != [] ==> from <= times[0] < LONG_MOD && Increasing(times[0], times[1..])
  }

  function SyncAll(t: Timer, times: seq<nat>): Timer
    requires t.prescale > 0 && Increasing(t.last, times)
    decreases |times|
  {
    if times == [] then t else SyncAll(Sync(t, times[0]), times[1..])
  }

  /** Reading or writing device registers at any instruction counts leaves the timer as one sync at
      the last of them would. */
  lemma {:induction false} SyncAnywhere(t: Timer, times: seq<nat>)
    requires Valid(t) && Increasing(t.last, times) && times != []
    ensures t.last <= times[|times| - 1] && SyncAll(t, times) == Sync(t, times[|times| - 1])
    decreases |times|
  {
    hide Sync;
    var s := Sync(t, times[0]);
    SyncValid(t, times[0]);
    SyncLast(t, times[0]);
    if |times| > 1 {
      SyncAnywhere(s, times[1..]);
      LastIsLate(times[0], times[1..]);
      SyncTwice(t, times[0], times[|times| - 1]);
    } else {
      assert SyncAll(s, times[1..]) == s;
    }
  }

  lemma SyncLast(t: Timer, now: nat)
    requires t.prescale > 0 && now >= t.last
    ensures Sync(t, now).last == now && Sync(t, now).prescale == t.prescale
  {
  }

  lemma {:induction false} LastIsLate(from: nat, times: seq<nat>)
    requires Increasing(from, times) && times != []
    ensures from <= times[|times| - 1] < LONG_MOD
    decreases |times|
  {
    if |times| <= 1 {
    } else {
      LastIsLate(times[0], times[1..]);
    }
  }

  // ---- the next deadline ----

  /** When the phase fills the period. */
  function Deadline(t: Timer): int {
    t.last + (t.period - t.phase) * t.prescale - t.frac
  }

  /** timer_next of an armed timer: 64 bits of it. */
  function Next(t: Timer): nat {
    Deadline(t) % LONG_MOD
  }

  /** The next deadline is later, and a sync raises the line exactly from it on. */
  ghost predicate NextRight(t: Timer)
    requires t.prescale > 0
  {
    Next(t) > t.last && forall now: nat :: t.last <= now < LONG_MOD ==> (Sync(t, now).pending <==> now >= Next(t))
  }

  lemma DeadlineRaises(t: Timer, now: nat)
    requires Valid(t) && Armed(t) && !t.pending && t.last <= now < LONG_MOD
    ensures Sync(t, now).pending <==> now >= Deadline(t)
  {
    NoWrap(t, now);
    hide Sync;
    var tot, gap := t.frac + (now - t.last), t.period - t.phase;
    DivAtLeast(tot, t.prescale, gap);
  }

  /** The wait is at least one instruction and less than 64 bits. */
  lemma Wait(t: Timer)
    requires Valid(t) && Armed(t) && t.frac < t.prescale
    ensures t.last < Deadline(t) < t.last + LONG_MOD
  {
    var gap := t.period - t.phase;
    MulLeq(1, gap, t.prescale);
    MulLeq(gap, COUNT_MOD, t.prescale);
    MulLeq(t.prescale, COUNT_MOD, COUNT_MOD);
  }

  /** Straight after a sync the next deadline is right exactly when it does not wrap. */
  lemma NextExact(t: Timer)
    requires Valid(t) && Armed(t) && !t.pending && t.frac < t.prescale
    ensures NextRight(t) <==> t.last + (t.period - t.phase) * t.prescale - t.frac < LONG_MOD
  {
    hide Sync;
    Wait(t);
    if Deadline(t) < LONG_MOD {
      Small(Deadline(t));
      forall now: nat | t.last <= now < LONG_MOD
        ensures Sync(t, now).pending <==> now >= Next(t)
      {
        DeadlineRaises(t, now);
      }
    } else {
      Wrapped(Deadline(t));
    }
  }

  lemma Wrapped(a: nat)
    requires LONG_MOD <= a < 2 * LONG_MOD
    ensures a % LONG_MOD == a - LONG_MOD
  {
  }

  /** With period and prescale at their greatest, after 2^33 instructions: the deadline comes out as 1. */
  lemma LongWait(t: Timer)
    requires t == Timer(0x2_0000_0000, 0, 0, 0, 0xFFFF_FFFF, 0xFFFF_FFFF, true, false)
    ensures Valid(t) && Next(t) == 1 && !NextRight(t)
  {
    assert Deadline(t) == LONG_MOD + 1;
    Wrapped(Deadline(t));
  }

  lemma ValidBounds(t: Timer)
    requires Valid(t)
    ensures t.prescale > 0 && (t.period > 0 ==> t.phase < t.period)
  {
  }

  /** The count is cut to 32 bits before it is added. */
  lemma CountSame(count: nat, ticks: nat)
    ensures Turn(count, ticks % COUNT_MOD, COUNT_MOD) == Turn(count, ticks, COUNT_MOD)
  {
    DivCarry(ticks, count, COUNT_MOD);
  }

  /** timer_wr on a timer just synchronised: a new period or control starts the phase anew, and a prescale of
      zero is one. */
  function Written(t: Timer, off: nat, v: Word): Timer {
    if off == 4 then t.(period := v, phase := 0)
    else if off == 8 then t.(on := v % 2 == 1, phase := 0)
    else if off == 12 then t.(prescale := if v == 0 then 1 else v)
    else t
  }

  lemma WrittenValid(t: Timer, off: nat, v: Word)
    requires Valid(t)
    ensures Valid(Written(t, off, v))
  {
  }

  /** The timer as the device model keeps it. */
  class Device {
    var t: Timer

    constructor (start: Timer)
      ensures t == start
    {
      t := start;
    }

    /** timer_sync, field by field. */
    method TimerSync(icount: nat)
      requires Valid(t) && t.last <= icount < LONG_MOD
      modifies this
      ensures t == Sync(old(t), icount) && Valid(t)
    {
      hide Valid, Turn, Divided;
      ValidBounds(t);
      SyncValid(t, icount);
      var tot := Turn(t.frac, icount - t.last, LONG_MOD);
      var (ticks, frac) := Divided(tot, t.prescale);
      CountSame(t.count, ticks);
      t := t.(last := icount, frac := frac, count := Turn(t.count, ticks % COUNT_MOD, COUNT_MOD));
      if t.on && t.period != 0 {
        var ph := Turn(t.phase, ticks, LONG_MOD);
        if ph >= t.period {
          t := t.(pending := true);
        }
        t := t.(phase := Turn(ph, 0, t.period));
      }
    }

    /** timer_wr. */
    method TimerWrite(icount: nat, off: nat, v: Word)
      requires Valid(t) && t.last <= icount < LONG_MOD
      modifies this
      ensures t == Written(Sync(old(t), icount), off, v) && Valid(t)
    {
      hide Valid, Sync;
      ValidBounds(t);
      TimerSync(icount);
      WrittenValid(t, off, v);
      if off == 4 {
        t := t.(period := v);
        t := t.(phase := 0);
      } else if off == 8 {
        t := t.(on := v % 2 == 1);
        t := t.(phase := 0);
      } else if off == 12 {
        t := t.(prescale := if v == 0 then 1 else v);
      }
    }
  }
}
