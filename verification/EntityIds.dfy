/** Time-ordered entity ids: UUID version 7 (RFC 9562, section 5.7) with a counter (section 6.2, method 1). */
module EntityIds {
  import opened Common

  const MS_RANGE := 0x1_0000_0000_0000 // 48 bits of milliseconds
  const COUNTER_MAX := 4095 // 12 bits of counter
  const SEED_RANGE := 2048 // the counter starts with its highest bit clear
  const RAND_RANGE := 0x4000_0000_0000_0000 // 62 random bits

  const MS_UNIT := 0x1_0000_0000_0000_0000_0000 // bit 80
  const VERSION_UNIT := 0x1000_0000_0000_0000_0000 // bit 76
  const COUNTER_UNIT := 0x1_0000_0000_0000_0000 // bit 64

  datatype State = State(lastMs: int, counter: nat)

  /** What one call draws: the clock, a new counter start, and the random tail. */
  datatype Draw = Draw(nowMs: int, seed: nat, rand: nat) {
    predicate Valid() { seed < SEED_RANGE && rand < RAND_RANGE }
  }

  const FRESH := State(-1, 0)

  function Advance(s: State, d: Draw): State {
    if d.nowMs > s.lastMs then State(d.nowMs, d.seed)
    else if s.counter < COUNTER_MAX then State(s.lastMs, s.counter + 1)
    else State(s.lastMs + 1, d.seed)
  }

  /** The fields side by side; none reaches into the next, so putting them together is adding them. */
  function Layout(s: State, rand: nat): int {
    (s.lastMs % MS_RANGE) * MS_UNIT + 7 * VERSION_UNIT + s.counter * COUNTER_UNIT + 2 * RAND_RANGE + rand
  }

  class Uuid7Generator {
    var lastMs: int
    var counter: nat

    ghost predicate Valid() reads this { counter <= COUNTER_MAX }

    ghost function Current(): State reads this { State(lastMs, counter) }

    constructor ()
      ensures Valid() && Current() == FRESH
    {
      lastMs, counter := -1, 0;
    }

    method Generate(d: Draw) returns (value: int)
      requires Valid() && d.Valid()
      modifies this
      ensures Valid() && Current() == Advance(old(Current()), d)
      ensures value == Layout(Current(), d.rand)
    {
      if d.nowMs > lastMs {
        lastMs := d.nowMs;
        counter := d.seed;
      } else if counter < COUNTER_MAX {
        counter := counter + 1;
      } else {
        lastMs := lastMs + 1;
        counter := d.seed;
      }
      value := (lastMs % MS_RANGE) * MS_UNIT + 7 * VERSION_UNIT + counter * COUNTER_UNIT + 2 * RAND_RANGE + d.rand;
    }
  }

  function VersionOf(value: int): int { value / VERSION_UNIT % 16 }

  datatype IdError = NotVersion7

  /** The milliseconds of an id; only version 7 has any. */
  function Timestamp(value: int): Result<int, IdError> {
    if VersionOf(value) != 7 then Err(NotVersion7) else Ok(value / MS_UNIT)
  }

  /** Every field can be read back, so none overlaps another; version and variant are fixed. */
  lemma FieldsRecover(s: State, rand: nat)
    requires s.counter <= COUNTER_MAX && rand < RAND_RANGE
    ensures var value := Layout(s, rand);
            && 0 <= value < MS_RANGE * MS_UNIT
            && value / MS_UNIT == s.lastMs % MS_RANGE
            && VersionOf(value) == 7
            && value / COUNTER_UNIT % 4096 == s.counter
            && value / RAND_RANGE % 4 == 2
            && value % RAND_RANGE == rand
  {
    var ms := s.lastMs % MS_RANGE;
    Field(ms, 7 * VERSION_UNIT + s.counter * COUNTER_UNIT + 2 * RAND_RANGE + rand, MS_UNIT);
    Field(ms * 16 + 7, s.counter * COUNTER_UNIT + 2 * RAND_RANGE + rand, VERSION_UNIT);
    Field((ms * 16 + 7) * 4096 + s.counter, 2 * RAND_RANGE + rand, COUNTER_UNIT);
    Field(((ms * 16 + 7) * 4096 + s.counter) * 4 + 2, rand, RAND_RANGE);
    Low(ms, 7, 16);
    Low(ms * 16 + 7, s.counter, 4096);
    Low((ms * 16 + 7) * 4096 + s.counter, 2, 4);
  }

  lemma Field(high: int, low: int, unit: int)
    requires 0 <= low < unit
    ensures (high * unit + low) / unit == high && (high * unit + low) % unit == low
  {
    var x := high * unit + low;
    SameQuotient(x / unit, x % unit, high, low, unit);
  }

  lemma SameQuotient(q: int, r: int, high: int, low: int, unit: int)
    requires q * unit + r == high * unit + low && 0 <= r < unit && 0 <= low < unit
    ensures q == high && r == low
  {
    assert (q - high) * unit == low - r && (high - q) * unit == r - low;
    if q > high { AtLeastOne(q - high, unit); }
    if q < high { AtLeastOne(high - q, unit); }
  }

  lemma AtLeastOne(k: int, unit: int)
    requires k >= 1 && unit >= 0
    ensures k * unit >= unit
  {
    assert k * unit == (k - 1) * unit + unit;
  }

  lemma Low(high: int, low: int, range: int)
    requires 0 <= low < range
    ensures (high * range + low) % range == low
  {
    Field(high, low, range);
  }

  lemma TimestampRecovers(s: State, rand: nat)
    requires s.counter <= COUNTER_MAX && rand < RAND_RANGE
    ensures Timestamp(Layout(s, rand)) == Ok(s.lastMs % MS_RANGE)
    ensures 0 <= s.lastMs < MS_RANGE ==> Timestamp(Layout(s, rand)) == Ok(s.lastMs)
  {
    FieldsRecover(s, rand);
  }

  // ---------------------------------------------------------------- order

  predicate Before(s: State, t: State) { s.lastMs < t.lastMs || (s.lastMs == t.lastMs && s.counter < t.counter) }

  /** Whatever the clock does, the generator's own time moves on. */
  lemma AdvanceMovesOn(s: State, d: Draw)
    requires s.counter <= COUNTER_MAX && d.Valid()
    ensures Before(s, Advance(s, d)) && Advance(s, d).counter <= COUNTER_MAX
  {
  }

  /** The 48-bit era a time falls into. */
  function Era(ms: int): int { ms / MS_RANGE }

  /** A later state less than an era on has the greater id exactly when it is in the same era. */
  lemma GreaterExactlyWhen(s: State, t: State, r: nat, q: nat)
    requires s.counter <= COUNTER_MAX && t.counter <= COUNTER_MAX && r < RAND_RANGE && q < RAND_RANGE
    requires Before(s, t) && t.lastMs - s.lastMs < MS_RANGE
    ensures Layout(s, r) < Layout(t, q) <==> Era(s.lastMs) == Era(t.lastMs)
  {
    EraStep(s.lastMs, t.lastMs);
  }

  lemma EraStep(a: int, b: int)
    requires a <= b && b - a < MS_RANGE
    ensures Era(a) == Era(b) ==> b % MS_RANGE - a % MS_RANGE == b - a
    ensures Era(a) != Era(b) ==> b % MS_RANGE < a % MS_RANGE
  {
    assert a == Era(a) * MS_RANGE + a % MS_RANGE && b == Era(b) * MS_RANGE + b % MS_RANGE;
  }

  function Run(draws: seq<Draw>): State {
    if draws == [] then FRESH else Advance(Run(draws[..|draws| - 1]), draws[|draws| - 1])
  }

  lemma {:induction false} RunMovesOn(draws: seq<Draw>, i: nat, j: nat)
    requires i < j <= |draws| && forall k :: 0 <= k < |draws| ==> draws[k].Valid()
    ensures Before(Run(draws[..i]), Run(draws[..j])) && Run(draws[..i]).counter <= COUNTER_MAX && Run(draws[..j]).counter <= COUNTER_MAX
    decreases j
  {
    assert draws[..j][..j - 1] == draws[..j - 1];
    if i < j - 1 {
      RunMovesOn(draws, i, j - 1);
    } else {
      CounterInRange(draws, i);
    }
    AdvanceMovesOn(Run(draws[..j - 1]), draws[j - 1]);
  }

  lemma {:induction false} CounterInRange(draws: seq<Draw>, i: nat)
    requires i <= |draws| && forall k :: 0 <= k < |draws| ==> draws[k].Valid()
    ensures Run(draws[..i]).counter <= COUNTER_MAX
  {
    if i > 0 {
      assert draws[..i][..i - 1] == draws[..i - 1];
      CounterInRange(draws, i - 1);
    }
  }

  /** The id of the i-th call. */
  function IdAt(draws: seq<Draw>, i: nat): int
    requires i < |draws|
  {
    Layout(Run(draws[..i + 1]), draws[i].rand)
  }

  /** For every clock, backwards steps included: ids increase strictly from call to call, as long as the
      generator's time is a 48-bit number, and each carries exactly that time. */
  lemma IdsIncrease(draws: seq<Draw>, i: nat, j: nat)
    requires i < j < |draws| && forall k :: 0 <= k < |draws| ==> draws[k].Valid()
    requires 0 <= Run(draws[..i + 1]).lastMs && Run(draws[..j + 1]).lastMs < MS_RANGE
    ensures IdAt(draws, i) < IdAt(draws, j)
    ensures Timestamp(IdAt(draws, i)) == Ok(Run(draws[..i + 1]).lastMs)
  {
    RunMovesOn(draws, i + 1, j + 1);
    GreaterExactlyWhen(Run(draws[..i + 1]), Run(draws[..j + 1]), draws[i].rand, draws[j].rand);
    TimestampRecovers(Run(draws[..i + 1]), draws[i].rand);
  }

  /** Outside those 48 bits the order breaks: at the end of the last era, and for a clock before 1970,
      whose time stays at -1 and is cut to all ones. */
  lemma OrderBreaksOutside(seed: nat, rand: nat)
    requires seed < SEED_RANGE && rand < RAND_RANGE
    ensures IdAt([Draw(MS_RANGE - 1, seed, rand), Draw(MS_RANGE, seed, rand)], 1)
          < IdAt([Draw(MS_RANGE - 1, seed, rand), Draw(MS_RANGE, seed, rand)], 0)
    ensures IdAt([Draw(-5, seed, rand), Draw(0, seed, rand)], 1) < IdAt([Draw(-5, seed, rand), Draw(0, seed, rand)], 0)
  {
    var late := [Draw(MS_RANGE - 1, seed, rand), Draw(MS_RANGE, seed, rand)];
    assert late[..1] == [late[0]] && late[..2] == late && late[..1][..0] == [] && late[..2][..1] == late[..1];
    assert Run(late[..1]) == State(MS_RANGE - 1, seed) && Run(late[..2]) == State(MS_RANGE, seed);
    var early := [Draw(-5, seed, rand), Draw(0, seed, rand)];
    assert early[..1] == [early[0]] && early[..2] == early && early[..1][..0] == [] && early[..2][..1] == early[..1];
    assert Run(early[..1]) == State(-1, 1) && Run(early[..2]) == State(0, seed);
  }
}
