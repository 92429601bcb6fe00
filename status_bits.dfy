/**
 * The bit test every mask query performs: a stored status code matches a
 * query word when the two have a set bit in common, not when they are equal.
 */
module StatusBits {
  import opened Conditions

  /** Whether a status code and a query word have a set bit in common. */
  predicate SharesFlag(status: StatusCode, bits: bv32)
  {
    status & bits != 0
  }

  /** Whether flag number `k` is set in `w`. */
  predicate HasFlag(w: bv32, k: bv32)
    requires k < 32
  {
    w & (1 << k) != 0
  }

  /** The word whose set bits are exactly the flags below `n`. */
  function FlagsBelow(n: bv32): bv32
    requires n <= 32
  {
    if n == 32 then 0xFFFF_FFFF else (1 << n) - 1
  }

  /** A word with no flag at `n - 1` keeps its set flags below `n - 1`. */
  lemma DropTopFlag(w: bv32, n: bv32)
    requires 0 < n <= 32
    requires w & FlagsBelow(n) != 0
    requires !HasFlag(w, n - 1)
    ensures w & FlagsBelow(n - 1) != 0
  {
  }

  /** A word with a flag below `n` set has a set flag number below `n`. */
  lemma {:induction false} SomeFlagBelow(w: bv32, n: bv32)
    requires n <= 32
    requires w & FlagsBelow(n) != 0
    ensures exists k: bv32 :: k < n && HasFlag(w, k)
    decreases n
  {
    assert n != 0;
    if !HasFlag(w, n - 1) {
      DropTopFlag(w, n);
      SomeFlagBelow(w, n - 1);
    }
  }

  /** A flag is set in `x & y` exactly when it is set in both. */
  lemma FlagOfBoth(x: bv32, y: bv32, k: bv32)
    requires k < 32
    ensures HasFlag(x & y, k) <==> HasFlag(x, k) && HasFlag(y, k)
  {
  }

  /** A match names a flag set in both words. */
  lemma CommonFlagOfShared(status: StatusCode, bits: bv32)
    requires SharesFlag(status, bits)
    ensures exists k: bv32 :: k < 32 && HasFlag(status, k) && HasFlag(bits, k)
  {
    SomeFlagBelow(status & bits, 32);
    var k: bv32 :| k < 32 && HasFlag(status & bits, k);
    FlagOfBoth(status, bits, k);
  }

  /** A flag set in both words makes a match. */
  lemma SharedOfCommonFlag(status: StatusCode, bits: bv32, k: bv32)
    requires k < 32 && HasFlag(status, k) && HasFlag(bits, k)
    ensures SharesFlag(status, bits)
  {
    FlagOfBoth(status, bits, k);
  }

  /**
   * The bit test reads as "the status and the query share a defect flag":
   * it holds exactly when some flag number is set in both words.
   */
  lemma SharesFlagIffCommonFlag(status: StatusCode, bits: bv32)
    ensures SharesFlag(status, bits) <==>
      exists k: bv32 :: k < 32 && HasFlag(status, k) && HasFlag(bits, k)
  {
    if SharesFlag(status, bits) {
      CommonFlagOfShared(status, bits);
    } else {
      forall k: bv32 | k < 32 && HasFlag(status, k)
        ensures !HasFlag(bits, k)
      {
        if HasFlag(bits, k) {
          SharedOfCommonFlag(status, bits, k);
        }
      }
    }
  }

  /** Masking distributes over the union of query words. */
  lemma AndDistributesOverOr(s: bv32, a: bv32, b: bv32)
    ensures s & (a | b) == (s & a) | (s & b)
  {
  }

  /** A union of words is non-zero exactly when one of them is. */
  lemma OrIsZero(x: bv32, y: bv32)
    ensures x | y != 0 <==> x != 0 || y != 0
  {
  }

  /** Querying the union of two flag sets matches when either query matches. */
  lemma SharesFlagOfUnion(status: StatusCode, b1: bv32, b2: bv32)
    ensures SharesFlag(status, b1 | b2) <==> SharesFlag(status, b1) || SharesFlag(status, b2)
  {
    AndDistributesOverOr(status, b1, b2);
    OrIsZero(status & b1, status & b2);
  }

  /** The worked case: status 0x6 matches the query 0x2 but not the query 0x1. */
  lemma SharesFlagExample()
    ensures !SharesFlag(0x6, 0x1) && SharesFlag(0x6, 0x2)
  {
  }
}
