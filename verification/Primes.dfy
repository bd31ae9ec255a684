/** The growth schedule of the table: the lengths and load limits of the two constant tables. */
module Primes {
  import opened Words

  const LAST_PRIME: nat := 25

  /** `primes[i]`. */
  function Prime(i: nat): (p: nat)
    requires i <= LAST_PRIME
    ensures p > 0
  {
    match i
    case 0 => 53 case 1 => 97 case 2 => 193 case 3 => 389 case 4 => 769
    case 5 => 1543 case 6 => 3079 case 7 => 6151 case 8 => 12289 case 9 => 24593
    case 10 => 49157 case 11 => 98317 case 12 => 196613 case 13 => 393241 case 14 => 786433
    case 15 => 1572869 case 16 => 3145739 case 17 => 6291469 case 18 => 12582917 case 19 => 25165843
    case 20 => 50331653 case 21 => 100663319 case 22 => 201326611 case 23 => 402653189
    case 24 => 805306457 case 25 => 1610612741
  }

  /** `load_factors[i]`. */
  function LoadLimit(i: nat): nat
    requires i <= LAST_PRIME
  {
    match i
    case 0 => 35 case 1 => 64 case 2 => 126 case 3 => 253 case 4 => 500
    case 5 => 1003 case 6 => 2002 case 7 => 3999 case 8 => 7988 case 9 => 15986
    case 10 => 31953 case 11 => 63907 case 12 => 127799 case 13 => 255607 case 14 => 511182
    case 15 => 1022365 case 16 => 2044731 case 17 => 4089455 case 18 => 8178897 case 19 => 16357798
    case 20 => 32715575 case 21 => 65431158 case 22 => 130862298 case 23 => 261724573
    case 24 => 523449198 case 25 => 1046898282
  }

  /** Every limit is 65 hundredths of the length, rounded up. */
  lemma LimitIsCeiling(i: nat)
    requires i <= LAST_PRIME
    ensures 13 * Prime(i) <= 20 * LoadLimit(i) < 13 * Prime(i) + 20
  {
  }

  /** Every length is odd; together with its limit that fixes it. */
  lemma PrimesOdd(i: nat, length: nat)
    requires i <= LAST_PRIME
    ensures Prime(i) % 2 == 1
    ensures length % 2 == 1 && 13 * length <= 20 * LoadLimit(i) < 13 * length + 20 ==> length == Prime(i)
  {
  }

  /** One step of the schedule: longer tables, and limits growing by more than half. */
  lemma ScheduleGrows(i: nat)
    requires i < LAST_PRIME
    ensures 0 < Prime(i) < Prime(i + 1) < TWO_TO_32
    ensures 2 * LoadLimit(i + 1) > 3 * LoadLimit(i)
    ensures LoadLimit(i + 1) < TWO_TO_32
  {
  }

  lemma {:induction false} PrimesIncrease(i: nat, j: nat)
    requires i < j <= LAST_PRIME
    ensures Prime(i) < Prime(j)
  {
    ScheduleGrows(j - 1);
    if i < j - 1 {
      PrimesIncrease(i, j - 1);
    }
  }
}
