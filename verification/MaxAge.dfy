/** The age filter of publish, in C++ integer arithmetic. */
module MaxAge {
  const TWO_31: int := 0x8000_0000
  const TWO_32: int := 0x1_0000_0000

  /** Integer division of C++: toward zero. */
  function Quotient(a: int, b: int): int
    requires b > 0
  {
    if a >= 0 then a / b else -((-a) / b)
  }

  /** Conversion of a long to a 32-bit int keeps the low 32 bits. */
  function ToInt32(x: int): int {
    (x + TWO_31) % TWO_32 - TWO_31
  }

  const DAY := 86400

  function DaysSince(now: int, timestamp: int): int {
    ToInt32(Quotient(now - timestamp, DAY))
  }

  predicate TooOld(now: int, timestamp: int, days: int) {
    DaysSince(now, timestamp) > days
  }

  /** The day count is representable. */
  predicate Fits(now: int, timestamp: int) {
    -TWO_31 * DAY <= now - timestamp < TWO_31 * DAY
  }

  /** A limit of D days drops a row only from a full D + 1 days on. */
  lemma AgeThreshold(now: int, timestamp: int, days: int)
    requires Fits(now, timestamp)
    ensures days >= 0 ==> (TooOld(now, timestamp, days) <==> now - timestamp >= (days + 1) * 86400)
    ensures days < 0 ==> (TooOld(now, timestamp, days) <==> now - timestamp > days * 86400)
  {
  }

  /** The whole days as the narrowing sees them lie above the limit and below 2^31. */
  predicate ResidueAbove(now: int, timestamp: int, days: int) {
    days < Quotient(now - timestamp, DAY) % TWO_32 < TWO_31
  }

  /** The exact test for every clock value, every timestamp and every limit an int can hold. */
  lemma TooOldExactly(now: int, timestamp: int, days: int)
    requires -TWO_31 <= days < TWO_31
    ensures days >= 0 ==> (TooOld(now, timestamp, days) <==> ResidueAbove(now, timestamp, days))
    ensures now >= timestamp && days >= 0 ==>
      (TooOld(now, timestamp, days) <==> days < (now - timestamp) / 86400 % 0x1_0000_0000 < 0x8000_0000)
    ensures days < 0 ==> (TooOld(now, timestamp, days) <==>
                           !(TWO_31 <= Quotient(now - timestamp, DAY) % TWO_32 <= TWO_32 + days))
  {
  }

  /** The filter does what the limit says, drop from a full days + 1 days on, exactly for rows younger than
      that and for older ones whose day count has its residue in the interval; for rows from the future,
      which the limit keeps, exactly for residues outside it. */
  lemma AgeRuleExactly(now: int, timestamp: int, days: int)
    requires 0 <= days < TWO_31
    ensures now >= timestamp ==>
      ((TooOld(now, timestamp, days) <==> now - timestamp >= (days + 1) * DAY)
        <==> now - timestamp < (days + 1) * DAY || ResidueAbove(now, timestamp, days))
    ensures now < timestamp ==>
      ((TooOld(now, timestamp, days) <==> now - timestamp >= (days + 1) * DAY)
        <==> !ResidueAbove(now, timestamp, days))
  {
  }

  /** At every clock value and for every limit there are older timestamps that pass. */
  lemma OldTimestampPasses(now: int, days: int, laps: nat)
    requires 0 <= days < TWO_31
    ensures var timestamp := now - (laps * TWO_32 + TWO_31) * DAY;
      now - timestamp >= (days + 1) * DAY && !TooOld(now, timestamp, days)
  {
  }

  /** In November 2023, with a limit of 30 days: a timestamp that fits a 64-bit long and passes, and an
      older one that is dropped all the same. */
  lemma PassesAndDropped()
    ensures var now := 1_700_000_000;
      && !TooOld(now, -185_540_887_187_200, 30) && now + 185_540_887_187_200 >= 31 * DAY
      && TooOld(now, -371_083_477_830_400, 30)
  {
  }
}
