/** Conversions between periods and timeouts, for machine words of any size.

    A timeout holds milliseconds in a `usize` whose largest value is `max`. */
module Timeouts {
  import opened Numerals
  import opened Periods

  /** The values of `usize::max_value()` on 64-bit and 32-bit machines. */
  const MAX64: nat := U64 - 1
  const MAX32: nat := 0xFFFF_FFFF

  /** `Duration::from_millis`, given that a `usize` always fits 64 bits. */
  function ToDuration(ms: nat): (d: Duration)
    ensures d.nanos < BILLION && d.nanos % 1_000_000 == 0 && d.secs * 1000 + d.nanos / 1_000_000 == ms
    ensures d.Total() == ms * 1_000_000
  {
    Duration(ms / 1000, ms % 1000 * 1_000_000)
  }

  /** `as usize`: keeps the low bits. */
  function AsUsize(x: nat, max: nat): nat {
    x % (max + 1)
  }

  /** The milliseconds of a period; a value above `max` would be an overflow of the word. */
  function FromPeriod(d: Duration, max: nat): int {
    if AsUsize(d.secs, max) >= max / 1000 then max
    else AsUsize(d.secs, max) * 1000 + d.nanos / 1_000_000
  }

  /** What the conversion is meant to be: exact, or the longest timeout when out of range. */
  function Saturated(d: Duration, max: nat): nat {
    if d.secs >= max / 1000 then max else d.secs * 1000 + d.nanos / 1_000_000
  }

  /** The arithmetic never leaves the word, whatever the word size. */
  lemma NeverOverflows(d: Duration, max: nat)
    requires d.Valid()
    ensures 0 <= FromPeriod(d, max) <= max
  {
    if AsUsize(d.secs, max) < max / 1000 {
      assert d.nanos / 1_000_000 <= 999;
      assert (max / 1000) * 1000 <= max;
    }
  }

  /** The conversion is exact or saturating if and only if the narrowing cast loses nothing
      that matters: either the seconds fit the word, or their low bits still say "too long". */
  lemma ConversionIsSaturatingIff(d: Duration, max: nat)
    requires d.Valid() && max >= 1000
    ensures FromPeriod(d, max) == Saturated(d, max) <==>
            d.secs <= max || AsUsize(d.secs, max) >= max / 1000
  {
    NeverOverflows(d, max);
    if d.secs <= max {
      SmallMod(d.secs, max + 1);
    } else if AsUsize(d.secs, max) < max / 1000 {
      var low := AsUsize(d.secs, max);
      assert d.secs >= max / 1000;
      assert d.nanos / 1_000_000 <= 999;
      assert (max / 1000) * 1000 <= max;
    }
  }

  lemma SmallMod(x: nat, m: nat)
    requires x < m
    ensures x % m == x
  {
  }

  /** On a 64-bit machine it always is. */
  lemma ExactOn64Bit(d: Duration)
    requires d.Valid()
    ensures FromPeriod(d, MAX64) == Saturated(d, MAX64)
  {
    ConversionIsSaturatingIff(d, MAX64);
  }

  /** On a 32-bit machine a period of 2^32 seconds, some 136 years, becomes no timeout at all. */
  lemma WrapsOn32Bit()
    ensures Duration(0x1_0000_0000, 0).Valid()
    ensures FromPeriod(Duration(0x1_0000_0000, 0), MAX32) == 0
    ensures Saturated(Duration(0x1_0000_0000, 0), MAX32) == MAX32
  {
  }

  /** A longer period never gives a shorter timeout. */
  lemma MonotoneOn64Bit(a: Duration, b: Duration)
    requires a.Valid() && b.Valid() && a.Total() <= b.Total()
    ensures FromPeriod(a, MAX64) <= FromPeriod(b, MAX64)
  {
    ExactOn64Bit(a);
    ExactOn64Bit(b);
    NeverOverflows(a, MAX64);
    assert a.secs <= b.secs;
    assert a.secs == b.secs ==> a.nanos <= b.nanos;
    assert a.nanos / 1_000_000 <= 999;
  }

  /** Timeout to duration to period and back. */
  lemma TimeoutRoundTrip(ms: nat)
    requires ms <= MAX64
    ensures ToDuration(ms).Valid()
    ensures FromPeriod(ToDuration(ms), MAX64) == if ms < MAX64 / 1000 * 1000 then ms else MAX64
  {
    ExactOn64Bit(ToDuration(ms));
  }
}
