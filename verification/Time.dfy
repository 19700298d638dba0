/** The two timestamps of the wire and their octets: `UtcTime` and `EntryTime`. */
module Time {
  import opened Octets

  /** The quality octet of a timestamp. */
  datatype TimeQuality = TimeQuality(leapSecondsKnown: bool, clockFailure: bool, clockNotSynchronized: bool,
                                     accuracy: U8) {
    function ToOctet(): Octet {
      (if leapSecondsKnown then 128 else 0)
      + (if clockFailure then 64 else 0)
      + (if clockNotSynchronized then 32 else 0)
      + accuracy % 32
    }

    static function FromOctet(b: Octet): TimeQuality {
      TimeQuality(b / 128 == 1, b / 64 % 2 == 1, b / 32 % 2 == 1, b % 32)
    }
  }

  const NANOS_PER_SECOND: int := 1_000_000_000

  /** Seconds since 1970 and a 24-bit binary fraction. */
  datatype UtcTime = UtcTime(seconds: U32, fraction: U32, quality: TimeQuality) {
    /** Only what the eight octets can carry. */
    predicate Canonical() {
      fraction < 0x100_0000 && quality.accuracy < 32
    }

    function ToOctets(): (o: seq<Octet>)
      ensures |o| == 8
    {
      ToBE(seconds, 4) + ToBE(fraction % 0x100_0000, 3) + [quality.ToOctet()]
    }

    static function FromOctets(o: seq<Octet>): (t: UtcTime)
      requires |o| == 8
      ensures t.Canonical()
    {
      FromBEBound(o[..4]);
      FromBEBound(o[4..7]);
      Pow256Values();
      UtcTime(FromBE(o[..4]), FromBE(o[4..7]), TimeQuality.FromOctet(o[7]))
    }

    function Nanos(): (n: nat)
      ensures n < NANOS_PER_SECOND
    {
      fraction % 0x100_0000 * NANOS_PER_SECOND / 0x100_0000
    }

    function ToUnixNanos(): nat {
      seconds * NANOS_PER_SECOND + Nanos()
    }

    /** Nanoseconds beyond a second carry; seconds saturate. */
    static function FromUnix(seconds: U32, nanos: U32, quality: TimeQuality): UtcTime {
      var s := seconds + nanos / NANOS_PER_SECOND;
      UtcTime(if s > 0xFFFF_FFFF then 0xFFFF_FFFF else s,
              nanos % NANOS_PER_SECOND * 0x100_0000 / NANOS_PER_SECOND % 0x100_0000,
              quality)
    }

    static function FromUnixNanos(nanos: U64, quality: TimeQuality): UtcTime {
      var s := nanos / NANOS_PER_SECOND;
      FromUnix(if s > 0xFFFF_FFFF then 0xFFFF_FFFF else s, nanos % NANOS_PER_SECOND, quality)
    }
  }

  /** The octets of a timestamp read back as that timestamp exactly when it is canonical. */
  lemma UtcTimeRoundTrip(t: UtcTime)
    ensures UtcTime.FromOctets(t.ToOctets()) == t <==> t.Canonical()
  {
    var o := t.ToOctets();
    Pow256Values();
    FromToBE(t.seconds, 4);
    FromToBE(t.fraction % 0x100_0000, 3);
    assert o[..4] == ToBE(t.seconds, 4) && o[4..7] == ToBE(t.fraction % 0x100_0000, 3);
    QualityRoundTrip(t.quality);
  }

  lemma QualityRoundTrip(q: TimeQuality)
    ensures TimeQuality.FromOctet(q.ToOctet()) == q.(accuracy := q.accuracy % 32)
  {
  }

  /** Time goes through a `UtcTime` rounded down by less than one unit of the 24-bit fraction; past the
      last second 32 bits can hold, it is that second's with the same fraction. */
  lemma NanosWithinOneUnit(nanos: U64, quality: TimeQuality)
    ensures var back, seconds := UtcTime.FromUnixNanos(nanos, quality).ToUnixNanos(), nanos / 1_000_000_000;
            var held := (if seconds > 0xFFFF_FFFF then 0xFFFF_FFFF else seconds) * 1_000_000_000
                        + nanos % 1_000_000_000;
            back <= held < back + 61
  {
    var sub := nanos % NANOS_PER_SECOND;
    assert sub * 0x100_0000 / NANOS_PER_SECOND < 0x100_0000;
  }

  /** MMS `BinaryTime` in its six-octet form. */
  datatype EntryTime = EntryTime(millisOfDay: U32, daysSince1984: U16) {
    /** The derived order of the source: the time of day decides before the date does. */
    predicate AtMost(that: EntryTime) {
      millisOfDay < that.millisOfDay || (millisOfDay == that.millisOfDay && daysSince1984 <= that.daysSince1984)
    }

    predicate WellFormed() {
      millisOfDay < 86_400_000
    }

    function ToOctets(): (o: seq<Octet>)
      ensures |o| == 6
    {
      ToBE(millisOfDay, 4) + ToBE(daysSince1984, 2)
    }

    static function FromOctets(o: seq<Octet>): EntryTime
      requires |o| == 6
    {
      FromBEBound(o[..4]);
      FromBEBound(o[4..]);
      Pow256Values();
      EntryTime(FromBE(o[..4]), FromBE(o[4..]))
    }

    static function FromUnixMillis(millis: U64): EntryTime {
      var day := millis / 86_400_000;
      if day < MMS_EPOCH_DAYS then EntryTime(0, 0)
      else if day - MMS_EPOCH_DAYS > 0xFFFF then MAX_ENTRY_TIME
      else EntryTime(millis % 86_400_000, day - MMS_EPOCH_DAYS)
    }

    function ToUnixMillis(): nat {
      (daysSince1984 + MMS_EPOCH_DAYS) * 86_400_000 + millisOfDay
    }
  }

  const MMS_EPOCH_DAYS: int := 5113
  const MAX_ENTRY_TIME: EntryTime := EntryTime(86_399_999, 0xFFFF)
  const FIRST_ENTRY_TIME: EntryTime := EntryTime(0, 0)

  lemma EntryTimeOctets(t: EntryTime)
    ensures EntryTime.FromOctets(t.ToOctets()) == t
  {
    var o := t.ToOctets();
    Pow256Values();
    FromToBE(t.millisOfDay, 4);
    FromToBE(t.daysSince1984, 2);
    assert o[..4] == ToBE(t.millisOfDay, 4) && o[4..] == ToBE(t.daysSince1984, 2);
  }

  /** Milliseconds survive an `EntryTime` exactly inside its range and saturate outside it, and
      what comes out is always well formed. */
  lemma EntryTimeMillis(millis: U64)
    ensures var t := EntryTime.FromUnixMillis(millis);
            var first, last := FIRST_ENTRY_TIME.ToUnixMillis(), MAX_ENTRY_TIME.ToUnixMillis();
            && t.WellFormed()
            && t.ToUnixMillis() == if millis < first then first else if millis > last then last else millis
  {
  }

  /** The order is that of time exactly when no earlier time of day goes with a later date. */
  lemma OrderIsChronologicalExactly(a: EntryTime, b: EntryTime)
    requires a.WellFormed() && b.WellFormed()
    ensures (a.AtMost(b) <==> a.ToUnixMillis() <= b.ToUnixMillis())
            <==> !(a.millisOfDay < b.millisOfDay && a.daysSince1984 > b.daysSince1984)
                 && !(a.millisOfDay > b.millisOfDay && a.daysSince1984 < b.daysSince1984)
  {
    if a.daysSince1984 < b.daysSince1984 {
      DaysDecide(a, b);
    } else if b.daysSince1984 < a.daysSince1984 {
      DaysDecide(b, a);
    }
  }

  lemma DaysDecide(a: EntryTime, b: EntryTime)
    requires a.WellFormed() && b.WellFormed() && a.daysSince1984 < b.daysSince1984
    ensures a.ToUnixMillis() < b.ToUnixMillis()
  {
    MulMono(a.daysSince1984 + 1, b.daysSince1984, 86_400_000);
  }

  /** The last second of one day is not before the first of the next. */
  lemma OrderIsNotChronological()
    ensures var evening, morning := EntryTime(86_399_999, 0), EntryTime(0, 1);
            evening.ToUnixMillis() + 1 == morning.ToUnixMillis() && !evening.AtMost(morning) && morning.AtMost(evening)
  {
  }
}
