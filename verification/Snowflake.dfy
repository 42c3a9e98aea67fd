/** The Snowflake generator (src/service_toolkit/ids/snowflake.py). */
module Snowflake {
  import opened Options
  import opened Bits

  /** The widths of the three low fields. */
  datatype Layout = Layout(sequenceBits: nat, workerBits: nat, datacenterBits: nat)

  const DEFAULT_LAYOUT := Layout(12, 5, 5)

  /** The four fields of an id; the time is counted from the epoch. */
  datatype Fields = Fields(time: int, datacenter: nat, worker: nat, sequence: nat)

  predicate Fits(l: Layout, f: Fields) {
    && f.datacenter < Pow2(l.datacenterBits) && f.worker < Pow2(l.workerBits) && f.sequence < Pow2(l.sequenceBits)
  }

  function Pack(l: Layout, f: Fields): int {
    Or(Or(Or(ShiftLeft(f.time, l.sequenceBits + l.workerBits + l.datacenterBits),
             ShiftLeft(f.datacenter, l.sequenceBits + l.workerBits)),
          ShiftLeft(f.worker, l.sequenceBits)),
       f.sequence)
  }

  function Unpack(l: Layout, id: int): Fields {
    var rest := id / Pow2(l.sequenceBits);
    var high := rest / Pow2(l.workerBits);
    Fields(high / Pow2(l.datacenterBits), high % Pow2(l.datacenterBits), rest % Pow2(l.workerBits),
           id % Pow2(l.sequenceBits))
  }

  /** The id as nested products, field by field. */
  function Nested(l: Layout, f: Fields): int {
    ((f.time * Pow2(l.datacenterBits) + f.datacenter) * Pow2(l.workerBits) + f.worker) * Pow2(l.sequenceBits)
    + f.sequence
  }

  lemma BelowProduct(x: int, a: int, y: int, b: int)
    requires 0 <= x < a && 0 <= y < b
    ensures 0 <= x * b + y < a * b
  {
    assert x * b <= (a - 1) * b == a * b - b;
  }

  lemma MulDistributes(a: int, b: int, m: int)
    ensures (a + b) * m == a * m + b * m
  {
  }

  /** Peeling the last field off: two numbers put together above it. */
  lemma OrPeels(high: int, n: nat, low: nat, m: nat)
    requires low < Pow2(n)
    ensures Or(ShiftLeft(high, n + m), ShiftLeft(low, m)) == ShiftLeft(high * Pow2(n) + low, m)
  {
    var a, b := Pow2(n), Pow2(m);
    Pow2Adds(n, m);
    MulAssoc(high, a, b);
    BelowProduct(low, a, 0, b);
    OrDisjoint(high, low * b, n + m);
    MulDistributes(high * a, low, b);
    ShiftLeftMultiplies(high, n + m);
    ShiftLeftMultiplies(low, m);
    ShiftLeftMultiplies(high * a + low, m);
  }

  lemma PackIsNested(l: Layout, f: Fields)
    requires Fits(l, f)
    ensures Pack(l, f) == Nested(l, f)
  {
    var s, w, d := l.sequenceBits, l.workerBits, l.datacenterBits;
    assert s + w + d == d + (s + w) && s + w == w + s;
    OrPeels(f.time, d, f.datacenter, s + w);
    var high := f.time * Pow2(d) + f.datacenter;
    OrPeels(high, w, f.worker, s);
    OrDisjoint(high * Pow2(w) + f.worker, f.sequence, s);
    ShiftLeftMultiplies(high * Pow2(w) + f.worker, s);
  }

  /** Every id decodes to the fields it was packed from. */
  lemma UnpackPack(l: Layout, f: Fields)
    requires Fits(l, f)
    ensures Unpack(l, Pack(l, f)) == f
  {
    PackIsNested(l, f);
    var high := f.time * Pow2(l.datacenterBits) + f.datacenter;
    var rest := high * Pow2(l.workerBits) + f.worker;
    DivModUnique(Pack(l, f), Pow2(l.sequenceBits), rest, f.sequence);
    DivModUnique(rest, Pow2(l.workerBits), high, f.worker);
    DivModUnique(high, Pow2(l.datacenterBits), f.time, f.datacenter);
  }

  lemma NestedIsMonotone(x: int, low: int, x': int, low': int, m: int)
    requires x < x' && 0 <= low < m && 0 <= low'
    ensures x * m + low < x' * m + low'
  {
    assert x' * m >= (x + 1) * m == x * m + m;
  }

  /** Ids of one generator are ordered like their (time, sequence) pairs. */
  lemma PackIsMonotone(l: Layout, f: Fields, g: Fields)
    requires Fits(l, f) && Fits(l, g) && f.datacenter == g.datacenter && f.worker == g.worker
    requires f.time < g.time || (f.time == g.time && f.sequence < g.sequence)
    ensures Pack(l, f) < Pack(l, g)
  {
    PackIsNested(l, f);
    PackIsNested(l, g);
    if f.time < g.time {
      var d, w, s := Pow2(l.datacenterBits), Pow2(l.workerBits), Pow2(l.sequenceBits);
      NestedIsMonotone(f.time, f.datacenter, g.time, g.datacenter, d);
      NestedIsMonotone(f.time * d + f.datacenter, f.worker, g.time * d + g.datacenter, g.worker, w);
      NestedIsMonotone((f.time * d + f.datacenter) * w + f.worker, f.sequence,
                       (g.time * d + g.datacenter) * w + g.worker, g.sequence, s);
    }
  }

  lemma NestedFits(timeBits: nat, l: Layout, f: Fields)
    requires Fits(l, f) && 0 <= f.time < Pow2(timeBits)
    ensures 0 <= Nested(l, f) < Pow2(timeBits + l.datacenterBits + l.workerBits + l.sequenceBits)
  {
    var t, d, w, s := timeBits, l.datacenterBits, l.workerBits, l.sequenceBits;
    Pow2Adds(t, d);
    Pow2Adds(t + d, w);
    Pow2Adds(t + d + w, s);
    var high := f.time * Pow2(d) + f.datacenter;
    BelowProduct(f.time, Pow2(t), f.datacenter, Pow2(d));
    BelowProduct(high, Pow2(t + d), f.worker, Pow2(w));
    BelowProduct(high * Pow2(w) + f.worker, Pow2(t + d + w), f.sequence, Pow2(s));
  }

  /** With the default layout an id of the first 2^41 milliseconds fits in 63 bits. */
  lemma DefaultIdsFit(f: Fields)
    requires Fits(DEFAULT_LAYOUT, f) && 0 <= f.time < Pow2(41)
    ensures 0 <= Pack(DEFAULT_LAYOUT, f) < Pow2(63)
  {
    PackIsNested(DEFAULT_LAYOUT, f);
    NestedFits(41, DEFAULT_LAYOUT, f);
  }

  // ---- the generator ----

  /** A clock: the reading of every look at it, in order. It may stand still or jump back. */
  class Clock {
    const readings: nat -> int
    var looks: nat

    constructor (readings: nat -> int)
      ensures this.readings == readings && looks == 0
    {
      this.readings, looks := readings, 0;
    }

    method CurrentMillis() returns (t: int)
      modifies this
      ensures t == readings(old(looks)) && looks == old(looks) + 1
    {
      t := readings(looks);
      looks := looks + 1;
    }
  }

  /** From this look on, the clock will at some time show more than `t`. */
  ghost predicate PassesAfter(readings: nat -> int, look: nat, t: int) {
    exists k: nat :: look <= k && readings(k) > t
  }

  /** The looks from `from` up to `to` end with the reading `next`: with the first look exactly when
      that one is usable, and no reading they pass over was after `last`. */
  ghost predicate FirstUsable(readings: nat -> int, from: nat, to: nat, last: int, next: int, usable: bool) {
    && from < to && next == readings(to - 1) && (to == from + 1 <==> usable)
    && forall k :: from <= k < to - 1 ==> readings(k) <= last
  }

  /** Out of range worker or datacenter numbers are refused. */
  predicate InRange(l: Layout, worker: int, datacenter: int) {
    0 <= worker < Pow2(l.workerBits) && 0 <= datacenter < Pow2(l.datacenterBits)
  }

  lemma NextSequence(sequence: nat, m: int)
    requires 0 <= sequence < m
    ensures (sequence + 1) % m == if sequence + 1 == m then 0 else sequence + 1
  {
    if sequence + 1 == m {
      DivModUnique(sequence + 1, m, 1, 0);
    } else {
      DivModUnique(sequence + 1, m, 0, sequence + 1);
    }
  }

  class SnowflakeGenerator {
    const epochMs: int
    const worker: nat
    const datacenter: nat
    const layout: Layout
    var lastTimestamp: int
    var sequence: nat
    /** Everything issued so far. */
    ghost var issued: seq<int>

    function FieldsAt(timestamp: int, sequence: nat): Fields {
      Fields(timestamp - epochMs, datacenter, worker, sequence)
    }

    ghost predicate IsMine(id: int) {
      Unpack(layout, id).datacenter == datacenter && Unpack(layout, id).worker == worker
    }

    /** The ids issued so far strictly increase, carry this generator's numbers, and the last one
        carries the fields `last`. */
    ghost predicate IssuedUpTo(last: Fields)
      reads this`issued
    {
      && (forall i, j :: 0 <= i < j < |issued| ==> issued[i] < issued[j])
      && (forall i :: 0 <= i < |issued| ==> IsMine(issued[i]))
      && (issued != [] ==> issued[|issued| - 1] == Pack(layout, last))
    }

    /** The last id carries the last timestamp and the current sequence number. */
    ghost predicate Valid()
      reads this
    {
      && InRange(layout, worker, datacenter) && sequence < Pow2(layout.sequenceBits)
      && IssuedUpTo(FieldsAt(lastTimestamp, sequence))
    }

    constructor (epochMs: int, worker: nat, datacenter: nat, l: Layout)
      requires InRange(l, worker, datacenter)
      ensures Valid() && issued == [] && lastTimestamp == -1
      ensures this.epochMs == epochMs && this.worker == worker && this.datacenter == datacenter && layout == l
    {
      this.epochMs, this.worker, this.datacenter, layout := epochMs, worker, datacenter, l;
      lastTimestamp, sequence, issued := -1, 0, [];
    }

    /** A reading that gives the next id without a wait: a later one, or the last one again with
        room in the sequence. */
    predicate Usable(reading: int)
      reads this
    {
      reading > lastTimestamp || (reading == lastTimestamp && sequence + 1 < Pow2(layout.sequenceBits))
    }

    /** Whether the next call ever returns: a wait needs a later reading to come. */
    ghost predicate Returns(clock: Clock)
      reads this, clock
    {
      Usable(clock.readings(clock.looks)) || PassesAfter(clock.readings, clock.looks + 1, lastTimestamp)
    }

    /** Looks at the clock until it shows more than `last`. */
    method WaitNextMillis(clock: Clock, last: int) returns (timestamp: int)
      requires PassesAfter(clock.readings, clock.looks, last)
      modifies clock
      ensures timestamp > last
      ensures clock.looks > old(clock.looks) && timestamp == clock.readings(clock.looks - 1)
      ensures forall k :: old(clock.looks) <= k < clock.looks - 1 ==> clock.readings(k) <= last
    {
      ghost var k: nat :| clock.looks <= k && clock.readings(k) > last;
      timestamp := clock.CurrentMillis();
      while timestamp <= last
        invariant clock.looks > old(clock.looks) && timestamp == clock.readings(clock.looks - 1)
        invariant timestamp <= last ==> clock.looks <= k
        invariant forall j :: old(clock.looks) <= j < clock.looks - 1 ==> clock.readings(j) <= last
        decreases k - clock.looks
      {
        timestamp := clock.CurrentMillis();
      }
    }

    /** Chooses the next (timestamp, sequence) pair; it comes after the last one. */
    method Advance(clock: Clock)
      requires sequence < Pow2(layout.sequenceBits) && Returns(clock)
      modifies this`lastTimestamp, this`sequence, clock
      ensures sequence < Pow2(layout.sequenceBits)
      ensures if lastTimestamp == old(lastTimestamp) then sequence == old(sequence) + 1
              else lastTimestamp > old(lastTimestamp) && sequence == 0
      ensures FirstUsable(clock.readings, old(clock.looks), clock.looks, old(lastTimestamp), lastTimestamp,
                          var reading := clock.readings(old(clock.looks));
                          || reading > old(lastTimestamp)
                          || (reading == old(lastTimestamp) && old(sequence) + 1 < Pow2(layout.sequenceBits)))
    {
      var timestamp := clock.CurrentMillis();
      if timestamp < lastTimestamp {
        timestamp := WaitNextMillis(clock, lastTimestamp);
      }
      if timestamp == lastTimestamp {
        AndMask(sequence + 1, layout.sequenceBits);
        NextSequence(sequence, Pow2(layout.sequenceBits));
        sequence := And(sequence + 1, Pow2(layout.sequenceBits) - 1);
        if sequence == 0 {
          timestamp := WaitNextMillis(clock, lastTimestamp);
        }
      } else {
        sequence := 0;
      }
      lastTimestamp := timestamp;
    }

    /** Packs the current pair, which comes after the pair (timestamp, number) of the last id. */
    method Emit(ghost timestamp: int, ghost number: nat) returns (id: int)
      requires InRange(layout, worker, datacenter)
      requires number < Pow2(layout.sequenceBits) && sequence < Pow2(layout.sequenceBits)
      requires timestamp < lastTimestamp || (timestamp == lastTimestamp && number < sequence)
      requires IssuedUpTo(FieldsAt(timestamp, number))
      modifies this`issued
      ensures Valid() && issued == old(issued) + [id]
      ensures forall i :: 0 <= i < |old(issued)| ==> old(issued)[i] < id
      ensures Unpack(layout, id) == Fields(lastTimestamp - epochMs, datacenter, worker, sequence)
    {
      var current := FieldsAt(lastTimestamp, sequence);
      id := Pack(layout, current);
      PackIsMonotone(layout, FieldsAt(timestamp, number), current);
      UnpackPack(layout, current);
      issued := issued + [id];
    }

    /** The next id: larger than all before it, whatever the clock does, on every call that returns. */
    method Generate(clock: Clock) returns (id: int)
      requires Valid() && Returns(clock)
      modifies this, clock
      ensures Valid() && issued == old(issued) + [id]
      ensures forall i :: 0 <= i < |old(issued)| ==> old(issued)[i] < id
      ensures Unpack(layout, id) == Fields(lastTimestamp - epochMs, datacenter, worker, sequence)
      ensures if lastTimestamp == old(lastTimestamp) then sequence == old(sequence) + 1
              else lastTimestamp > old(lastTimestamp) && sequence == 0
      ensures FirstUsable(clock.readings, old(clock.looks), clock.looks, old(lastTimestamp), lastTimestamp,
                          var reading := clock.readings(old(clock.looks));
                          || reading > old(lastTimestamp)
                          || (reading == old(lastTimestamp) && old(sequence) + 1 < Pow2(layout.sequenceBits)))
    {
      ghost var timestamp, number := lastTimestamp, sequence;
      Advance(clock);
      id := Emit(timestamp, number);
    }
  }

  method MakeGenerator(epochMs: int, worker: int, datacenter: int, l: Layout)
    returns (generator: Option<SnowflakeGenerator>)
    ensures generator.Some? <==> 0 <= worker < Pow2(l.workerBits) && 0 <= datacenter < Pow2(l.datacenterBits)
    ensures generator.Some? ==>
      var g := generator.value;
      && fresh(g) && g.Valid() && g.issued == []
      && g.epochMs == epochMs && g.worker == worker && g.datacenter == datacenter && g.layout == l
  {
    if worker < 0 || worker >= Pow2(l.workerBits) || datacenter < 0 || datacenter >= Pow2(l.datacenterBits) {
      return None;
    }
    var g := new SnowflakeGenerator(epochMs, worker, datacenter, l);
    generator := Some(g);
  }

  /** Two generators of one layout with different (datacenter, worker) never issue the same id. */
  lemma GeneratorsNeverCollide(g: SnowflakeGenerator, h: SnowflakeGenerator, i: nat, j: nat)
    requires g.Valid() && h.Valid() && g.layout == h.layout
    requires (g.datacenter, g.worker) != (h.datacenter, h.worker)
    requires i < |g.issued| && j < |h.issued|
    ensures g.issued[i] != h.issued[j]
  {
    assert g.IsMine(g.issued[i]) && h.IsMine(h.issued[j]);
  }
}
