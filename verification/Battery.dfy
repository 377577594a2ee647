/**
 * Battery charge (AT+CBC): readings of any number of batteries are clamped, converted and added up, and the
 * total is reported as a percentage.
 */
module Battery {
  import opened Ctype

  /** The attributes of one power supply, each of which may be missing. */
  datatype Supply = Supply(
    chargeNow: Option<nat>, chargeFull: Option<nat>,
    voltageNow: Option<nat>, energyNow: Option<nat>, energyFull: Option<nat>,
    discharging: bool)

  datatype Charge = Charge(charge: nat, capacity: nat)

  function Least(a: nat, b: nat): nat {
    if a > b then b else a
  }

  /** What a battery adds to the totals: its charge, or its energy at the present voltage, or nothing. */
  function Contribution(b: Supply): Charge {
    if b.chargeNow.Some? && b.chargeFull.Some? then
      Charge(Least(b.chargeNow.value, b.chargeFull.value), b.chargeFull.value)
    else if b.voltageNow.Some? && b.energyNow.Some? && b.energyFull.Some? && b.voltageNow.value != 0 then
      Charge(1000000 * Least(b.energyNow.value, b.energyFull.value) / b.voltageNow.value,
             1000000 * b.energyFull.value / b.voltageNow.value)
    else Charge(0, 0)
  }

  function Total(bs: seq<Supply>): Charge {
    if bs == [] then Charge(0, 0)
    else
      var t, c := Total(bs[..|bs| - 1]), Contribution(bs[|bs| - 1]);
      Charge(t.charge + c.charge, t.capacity + c.capacity)
  }

  /** The totals are sums: every battery is counted once, in whatever order. */
  lemma {:induction false} TotalAdds(a: seq<Supply>, b: seq<Supply>)
    ensures Total(a + b).charge == Total(a).charge + Total(b).charge
    ensures Total(a + b).capacity == Total(a).capacity + Total(b).capacity
    ensures |b| == 1 ==> Total(b) == Contribution(b[0])
    decreases |b|
  {
    if b == [] {
      assert a + b == a;
    } else {
      assert (a + b)[..|a + b| - 1] == a + b[..|b| - 1];
      TotalAdds(a, b[..|b| - 1]);
    }
  }

  function Percent(c: Charge): nat
    requires c.capacity > 0
  {
    100 * c.charge / c.capacity
  }

  lemma PercentIs(c: Charge)
    requires c.capacity > 0
    ensures Percent(c) == 100 * c.charge / c.capacity
  {
  }

  /** The quotient of a division: q times the divisor, and less than one more of it. */
  predicate IsQuotient(q: nat, x: nat, d: nat) {
    q * d <= x < (q + 1) * d
  }

  lemma DivisionIs(x: nat, d: nat)
    requires d > 0
    ensures IsQuotient(x / d, x, d)
  {
    assert x == x / d * d + x % d;
  }

  /**
   * What one battery contributes: its charge, but no more than when it is full; or a million times its energy, but
   * no more than when it is full, divided by its voltage; and the same of what it holds when full.
   */
  lemma ContributionIs(b: Supply, now: nat, full: nat, volts: nat)
    ensures b.chargeNow == Some(now) && b.chargeFull == Some(full) ==>
              Contribution(b) == Charge(if now <= full then now else full, full)
    ensures (b.chargeNow.None? || b.chargeFull.None?) && volts > 0
            && b.voltageNow == Some(volts) && b.energyNow == Some(now) && b.energyFull == Some(full) ==>
              && IsQuotient(Contribution(b).capacity, 1000000 * full, volts)
              && IsQuotient(Contribution(b).charge, 1000000 * (if now <= full then now else full), volts)
    ensures (b.chargeNow.None? || b.chargeFull.None?)
            && (b.voltageNow == None || b.voltageNow == Some(0) || b.energyNow == None || b.energyFull == None) ==>
              Contribution(b) == Charge(0, 0)
  {
    hide IsQuotient;
    if volts > 0 {
      DivisionIs(1000000 * full, volts);
      DivisionIs(1000000 * (if now <= full then now else full), volts);
    }
  }

  /** The percentage is the quotient of a hundred times the charge by the capacity. */
  lemma PercentIsQuotient(c: Charge)
    requires c.capacity > 0
    ensures IsQuotient(Percent(c), 100 * c.charge, c.capacity)
  {
    DivisionIs(100 * c.charge, c.capacity);
  }

  datatype Report = NoBattery | Level(powered: bool, percent: nat)

  // ------------------------------------------------------------------ properties

  lemma MulMonotone(d: nat, x: nat, y: nat)
    requires x <= y
    ensures d * x <= d * y
  {
    assert d * y == d * x + d * (y - x);
  }

  lemma DivMonotone(a: nat, b: nat, d: nat)
    requires a <= b && d > 0
    ensures a / d <= b / d
  {
    var q, r := a / d, b / d;
    assert d * q <= a && b < d * r + d;
    if r + 1 <= q {
      MulMonotone(d, r + 1, q);
      assert false;
    }
  }

  /** No battery holds more than its capacity, whatever it reads. */
  lemma ContributionWithinCapacity(b: Supply)
    ensures Contribution(b).charge <= Contribution(b).capacity
  {
    if !(b.chargeNow.Some? && b.chargeFull.Some?)
       && b.voltageNow.Some? && b.energyNow.Some? && b.energyFull.Some? && b.voltageNow.value != 0 {
      var stored, full := 1000000 * Least(b.energyNow.value, b.energyFull.value), 1000000 * b.energyFull.value;
      DivMonotone(stored, full, b.voltageNow.value);
    }
  }

  lemma {:induction false} TotalWithinCapacity(bs: seq<Supply>)
    ensures Total(bs).charge <= Total(bs).capacity
    decreases |bs|
  {
    if bs == [] {
    } else {
      TotalWithinCapacity(bs[..|bs| - 1]);
      ContributionWithinCapacity(bs[|bs| - 1]);
    }
  }

  lemma PercentAtLeastIff(c: Charge, m: nat)
    requires c.capacity > 0
    ensures Percent(c) >= m <==> 100 * c.charge >= m * c.capacity
  {
    var p := Percent(c);
    assert p * c.capacity <= 100 * c.charge < p * c.capacity + c.capacity;
    if p >= m {
      assert p * c.capacity >= m * c.capacity;
    } else {
      assert (p + 1) * c.capacity <= m * c.capacity;
    }
  }

  predicate Contributes(b: Supply) {
    Contribution(b).capacity > 0
  }

  /** If every contributing battery has at least m percent, so has the total. */
  lemma {:induction false} TotalAtLeast(bs: seq<Supply>, m: nat)
    requires forall i :: 0 <= i < |bs| && Contributes(bs[i]) ==> Percent(Contribution(bs[i])) >= m
    ensures 100 * Total(bs).charge >= m * Total(bs).capacity
    decreases |bs|
  {
    hide Contribution, Percent;
    if bs == [] {
    } else {
      var t, c := Total(bs[..|bs| - 1]), Contribution(bs[|bs| - 1]);
      TotalAtLeast(bs[..|bs| - 1], m);
      ContributionWithinCapacity(bs[|bs| - 1]);
      if c.capacity > 0 {
        PercentAtLeastIff(c, m);
      }
      assert m * (t.capacity + c.capacity) == m * t.capacity + m * c.capacity;
    }
  }

  /** If every contributing battery has less than m percent, so has a total with some capacity. */
  lemma {:induction false} TotalBelow(bs: seq<Supply>, m: nat)
    requires forall i :: 0 <= i < |bs| && Contributes(bs[i]) ==> Percent(Contribution(bs[i])) < m
    ensures Total(bs).capacity > 0 ==> 100 * Total(bs).charge < m * Total(bs).capacity
    ensures Total(bs).capacity == 0 ==> Total(bs).charge == 0
    decreases |bs|
  {
    hide Contribution, Percent;
    if bs == [] {
    } else {
      var t, c := Total(bs[..|bs| - 1]), Contribution(bs[|bs| - 1]);
      TotalBelow(bs[..|bs| - 1], m);
      ContributionWithinCapacity(bs[|bs| - 1]);
      if c.capacity > 0 {
        PercentAtLeastIff(c, m);
      }
      assert m * (t.capacity + c.capacity) == m * t.capacity + m * c.capacity;
    }
  }

  /**
   * With some capacity, the percentage lies in 0..100 and between the smallest and the largest percentage
   * of the batteries that contribute capacity.
   */
  lemma PercentBetweenBatteries(bs: seq<Supply>)
    requires Total(bs).capacity > 0
    ensures Percent(Total(bs)) <= 100
    ensures exists i :: 0 <= i < |bs| && Contributes(bs[i]) && Percent(Contribution(bs[i])) <= Percent(Total(bs))
    ensures exists i :: 0 <= i < |bs| && Contributes(bs[i]) && Percent(Contribution(bs[i])) >= Percent(Total(bs))
  {
    var p := Percent(Total(bs));
    TotalWithinCapacity(bs);
    PercentAtLeastIff(Total(bs), 101);
    PercentAtLeastIff(Total(bs), p);
    PercentAtLeastIff(Total(bs), p + 1);
    hide Contribution, Percent, Total;
    if forall i :: 0 <= i < |bs| && Contributes(bs[i]) ==> Percent(Contribution(bs[i])) > p {
      TotalAtLeast(bs, p + 1);
    }
    if forall i :: 0 <= i < |bs| && Contributes(bs[i]) ==> Percent(Contribution(bs[i])) < p {
      TotalBelow(bs, p);
    }
  }

  // ------------------------------------------------------------------ the program

  const LONG_LONG: nat := 0x1_0000_0000_0000_0000

  /** Unsigned arithmetic modulo the number of values of the type. */
  function Wrap(x: nat, word: nat): nat
    requires word > 0
  {
    x % word
  }

  lemma WrapSmall(x: nat, word: nat)
    requires x < word
    ensures Wrap(x, word) == x
  {
  }

  /** What the program adds for a battery, when products wrap around. */
  function Stored(b: Supply): Charge {
    if b.chargeNow.Some? && b.chargeFull.Some? then
      Charge(Least(b.chargeNow.value, b.chargeFull.value), b.chargeFull.value)
    else if b.voltageNow.Some? && b.energyNow.Some? && b.energyFull.Some? && b.voltageNow.value != 0 then
      Charge(Wrap(1000000 * Least(b.energyNow.value, b.energyFull.value), LONG_LONG) / b.voltageNow.value,
             Wrap(1000000 * b.energyFull.value, LONG_LONG) / b.voltageNow.value)
    else Charge(0, 0)
  }

  /** And what it has added up, when sums wrap around; word is the number of values of unsigned long. */
  function StoredTotal(bs: seq<Supply>, word: nat): (c: Charge)
    requires word > 0
    ensures c.charge < word && c.capacity < word
  {
    if bs == [] then Charge(0, 0)
    else
      var t, c := StoredTotal(bs[..|bs| - 1], word), Stored(bs[|bs| - 1]);
      Charge(Wrap(t.charge + c.charge, word), Wrap(t.capacity + c.capacity, word))
  }

  /** The sums of what is added for each battery, if they did not wrap around. */
  function Added(bs: seq<Supply>): Charge {
    if bs == [] then Charge(0, 0)
    else
      var t, c := Added(bs[..|bs| - 1]), Stored(bs[|bs| - 1]);
      Charge(t.charge + c.charge, t.capacity + c.capacity)
  }

  lemma RemainderOfSum(t: nat, c: nat, word: nat)
    requires word > 0
    ensures (t % word + c) % word == (t + c) % word
  {
    var q := (t % word + c) / word;
    assert t + c == word * (t / word + q) + (t % word + c) % word;
    RemainderIs(t + c, word, t / word + q, (t % word + c) % word);
  }

  lemma RemainderIs(x: nat, word: nat, q: nat, r: nat)
    requires x == word * q + r && r < word
    ensures x % word == r
  {
    assert x == word * (x / word) + x % word;
    if q < x / word {
      assert word * (x / word) == word * q + word * (x / word - q);
      MulMonotone(word, 1, x / word - q);
    } else if q > x / word {
      assert word * q == word * (x / word) + word * (q - x / word);
      MulMonotone(word, 1, q - x / word);
    }
  }

  lemma WrapOfSum(t: nat, c: nat, word: nat)
    requires word > 0
    ensures Wrap(Wrap(t, word) + c, word) == Wrap(t + c, word)
  {
    RemainderOfSum(t, c, word);
  }

  lemma {:induction false} SumsWrap(bs: seq<Supply>, word: nat)
    requires word > 0
    ensures StoredTotal(bs, word) == Charge(Wrap(Added(bs).charge, word), Wrap(Added(bs).capacity, word))
    decreases |bs|
  {
    hide Stored, Wrap;
    if bs == [] {
      WrapSmall(0, word);
    } else {
      var before, c := bs[..|bs| - 1], Stored(bs[|bs| - 1]);
      SumsWrap(before, word);
      WrapOfSum(Added(before).charge, c.charge, word);
      WrapOfSum(Added(before).capacity, c.capacity, word);
    }
  }

  /** However often the sums wrap around on the way, they are the remainders of the true ones. */
  lemma SumsWrapAround(bs: seq<Supply>, word: nat)
    requires word > 0
    ensures StoredTotal(bs, word).charge == Added(bs).charge % word
    ensures StoredTotal(bs, word).capacity == Added(bs).capacity % word
  {
    SumsWrap(bs, word);
  }

  /** The report on totals, when the last product wraps around. */
  function ReportOn(c: Charge, powered: bool, word: nat): Report
    requires word > 0
  {
    if c.capacity == 0 then NoBattery else Level(powered, Wrap(100 * c.charge, word) / c.capacity)
  }

  predicate Powered(bs: seq<Supply>) {
    forall i :: 0 <= i < |bs| ==> !bs[i].discharging
  }

  /** No sum or product wraps around. */
  predicate NoOverflow(bs: seq<Supply>, word: nat) {
    && Total(bs).capacity < word && 100 * Total(bs).charge < word
    && forall i :: 0 <= i < |bs| ==>
         bs[i].energyFull.Some? && bs[i].energyNow.Some? ==> 1000000 * bs[i].energyFull.value < 0x1_0000_0000_0000_0000
  }

  lemma {:induction false} TotalGrows(bs: seq<Supply>, n: nat)
    requires n <= |bs|
    ensures Total(bs[..n]).charge <= Total(bs).charge && Total(bs[..n]).capacity <= Total(bs).capacity
    decreases |bs|
  {
    if n == |bs| {
      assert bs[..n] == bs;
    } else {
      assert bs[..|bs| - 1][..n] == bs[..n];
      TotalGrows(bs[..|bs| - 1], n);
    }
  }

  lemma StoredIsContribution(b: Supply)
    requires b.energyFull.Some? && b.energyNow.Some? ==> 1000000 * b.energyFull.value < LONG_LONG
    ensures Stored(b) == Contribution(b)
  {
    if b.energyFull.Some? && b.energyNow.Some? {
      WrapSmall(1000000 * b.energyFull.value, LONG_LONG);
      WrapSmall(1000000 * Least(b.energyNow.value, b.energyFull.value), LONG_LONG);
    }
  }

  /** As long as nothing wraps around, the totals and the percentage are the true ones. */
  lemma {:induction false} NothingWraps(bs: seq<Supply>, word: nat)
    requires word > 0 && NoOverflow(bs, word)
    ensures StoredTotal(bs, word) == Total(bs)
    ensures Total(bs).capacity > 0 ==> ReportOn(Total(bs), Powered(bs), word) == Level(Powered(bs), Percent(Total(bs)))
    decreases |bs|
  {
    WrapSmall(100 * Total(bs).charge, word);
    if bs == [] {
    } else {
      TotalGrows(bs, |bs| - 1);
      NothingWraps(bs[..|bs| - 1], word);
      StoredIsContribution(bs[|bs| - 1]);
      WrapSmall(Total(bs).charge, word);
      WrapSmall(Total(bs).capacity, word);
      hide Wrap, Contribution, Stored, Percent;
    }
  }

  /** Products wrap around at 64 bits: an energy of 2 to the power of 58 microwatt hours is lost entirely. */
  lemma LargeEnergyIsLost(b: Supply, volts: nat)
    requires b.chargeNow.None? && b.energyNow == b.energyFull == Some(0x400_0000_0000_0000)
    requires b.voltageNow == Some(volts) && volts > 0
    ensures Stored(b) == Charge(0, 0)
  {
    assert 1000000 * 0x400_0000_0000_0000 == 15625 * 0x1_0000_0000_0000_0000;
  }

  lemma WrapTakesWords(x: nat, word: nat)
    requires 0 < word <= x
    ensures Wrap(x, word) <= x - word
  {
    assert x == x / word * word + x % word && x / word >= 1;
    MulMonotone(word, 1, x / word);
  }

  /** The last product is harmless if and only if it does not wrap around: otherwise the percentage is too low. */
  lemma PercentIsRightIff(c: Charge, word: nat)
    requires 0 < c.capacity < word
    ensures Wrap(100 * c.charge, word) / c.capacity == Percent(c) <==> 100 * c.charge < word
  {
    hide Wrap;
    var x := 100 * c.charge;
    PercentIs(c);
    if x < word {
      WrapSmall(x, word);
    } else {
      WrapTakesWords(x, word);
      hide Percent;
      QuotientDrops(Wrap(x, word), x, c.capacity);
    }
  }

  lemma QuotientDrops(w: nat, x: nat, d: nat)
    requires d > 0 && w + d <= x
    ensures w / d < x / d
  {
    var q, p := w / d, x / d;
    assert w == d * q + w % d && x == d * p + x % d;
    if p <= q {
      MulMonotone(d, p, q);
    }
  }

  /** With 32-bit words, a full battery of 50 Ah is reported at 14 percent. */
  lemma LargeBatteryIsMisread(b: Supply)
    requires b.chargeNow == b.chargeFull == Some(50000000)
    ensures StoredTotal([b], 0x1_0000_0000) == Total([b]) == Charge(50000000, 50000000)
    ensures Percent(Total([b])) == 100
    ensures ReportOn(Total([b]), true, 0x1_0000_0000) == Level(true, 14)
  {
    assert [b][..0] == [];
  }

  /** The reading of one battery, in wrapping arithmetic. */
  method AddBattery(b: Supply, word: nat, charge: nat, capacity: nat) returns (charge': nat, capacity': nat)
    requires charge < word && capacity < word
    ensures charge' == Wrap(charge + Stored(b).charge, word) && capacity' == Wrap(capacity + Stored(b).capacity, word)
  {
    hide Wrap;
    WrapSmall(charge, word);
    WrapSmall(capacity, word);
    charge', capacity' := charge, capacity;
    if b.chargeNow.Some? && b.chargeFull.Some? {
      var uAh, uAhMax := b.chargeNow.value, b.chargeFull.value;
      if uAh > uAhMax {
        uAh := uAhMax;
      }
      charge', capacity' := Wrap(charge + uAh, word), Wrap(capacity + uAhMax, word);
    } else if b.voltageNow.Some? && b.energyNow.Some? && b.energyFull.Some? {
      var uvolts, uWh, uWhMax := b.voltageNow.value, b.energyNow.value, b.energyFull.value;
      if uWh > uWhMax {
        uWh := uWhMax;
      }
      if uvolts != 0 {
        charge' := Wrap(charge + Wrap(1000000 * uWh, LONG_LONG) / uvolts, word);
        capacity' := Wrap(capacity + Wrap(1000000 * uWhMax, LONG_LONG) / uvolts, word);
      }
    }
  }

  /** do_cbc: the device loop and the report. */
  method ReportCharge(bs: seq<Supply>, word: nat) returns (r: Report)
    requires word > 0
    ensures r == ReportOn(StoredTotal(bs, word), Powered(bs), word)
    ensures NoOverflow(bs, word) ==>
              r == if Total(bs).capacity == 0 then NoBattery else Level(Powered(bs), Percent(Total(bs)))
  {
    hide Stored, Wrap, Percent, NoOverflow;
    var charge: nat, capacity: nat, discharging := 0, 0, false;
    for i := 0 to |bs|
      invariant Charge(charge, capacity) == StoredTotal(bs[..i], word)
      invariant discharging == exists j :: 0 <= j < i && bs[j].discharging
    {
      assert bs[..i + 1][..i] == bs[..i];
      charge, capacity := AddBattery(bs[i], word, charge, capacity);
      if bs[i].discharging {
        discharging := true;
      }
    }
    assert bs[..|bs|] == bs;
    if capacity == 0 {
      r := NoBattery;
    } else {
      r := Level(!discharging, Wrap(100 * charge, word) / capacity);
    }
    if NoOverflow(bs, word) {
      NothingWraps(bs, word);
    }
  }
}
