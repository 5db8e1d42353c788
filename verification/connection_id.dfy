/** Connection identifiers: the process-wide counter and its fixed-width printed form. */
module ConnectionId {
  import opened Decimal

  const INT_MAX: int := 0x7fff_ffff
  const INT_RANGE: int := 0x1_0000_0000
  const FIELD_WIDTH: nat := 10
  const ID_LENGTH: nat := 13

  /** The value of a 32-bit signed integer that has been incremented `n` times from zero;
      atomic increments wrap around. */
  function Wrap(n: int): (r: int)
    ensures -INT_MAX - 1 <= r <= INT_MAX
    ensures (r - n) % INT_RANGE == 0
  {
    var u := n % INT_RANGE;
    if u > INT_MAX then u - INT_RANGE else u
  }

  function Spaces(n: nat): (s: string)
    ensures |s| == n && forall i :: 0 <= i < n ==> s[i] == ' '
  {
    seq(n, _ => ' ')
  }

  /** The conversion `%10d`: at least ten characters, right-justified with spaces
      (section 7.21.6.1 of ISO C11). */
  function Padded(n: int): string {
    var s := ToString(n);
    if |s| < FIELD_WIDTH then Spaces(FIELD_WIDTH - |s|) + s else s
  }

  /** The identifier printed for counter value `n`. */
  function Format(n: int): string {
    "ID:" + Padded(n)
  }

  /** The identifier the `k`-th call of `NextConnectionId` in a process returns; the call made
      during static initialisation is number 1. */
  function NthId(k: nat): string {
    Format(Wrap(k))
  }

  /** The counter `_nextId` and the identifier printed at start-up that fixes the handshake width. */
  class Generator {
    var nextId: int
    const zeroId: string

    ghost predicate Valid(issued: nat)
      reads this
    {
      issued >= 1 && nextId == Wrap(issued) && zeroId == NthId(1)
    }

    constructor ()
      ensures Valid(1)
    {
      nextId := Wrap(1);
      zeroId := Format(Wrap(1));
    }

    method ConnectIdLength() returns (length: nat)
      requires zeroId == NthId(1)
      ensures length == ID_LENGTH
    {
      LengthIs13(1);
      length := |zeroId|;
    }

    method NextConnectionId(ghost issued: nat) returns (id: string)
      requires Valid(issued)
      modifies this
      ensures Valid(issued + 1)
      ensures id == NthId(issued + 1)
      ensures |id| <= 19  // it fits the 20-byte buffer with its terminator
    {
      WrapSuccessor(issued);
      nextId := if nextId == INT_MAX then -INT_MAX - 1 else nextId + 1;
      PaddedLength(nextId);
      id := Format(nextId);
    }
  }

  lemma WrapSuccessor(k: nat)
    ensures Wrap(k + 1) == if Wrap(k) == INT_MAX then -INT_MAX - 1 else Wrap(k) + 1
  {
    var q, u := k / INT_RANGE, k % INT_RANGE;
    assert k == q * INT_RANGE + u;
    if u == INT_RANGE - 1 {
      assert k + 1 == (q + 1) * INT_RANGE;
    } else {
      assert k + 1 == q * INT_RANGE + (u + 1);
    }
  }

  lemma Powers()
    ensures Pow10(10) == 10000000000 && Pow10(9) == 1000000000
  {
    assert Pow10(3) == 1000;
    assert Pow10(6) == 10 * (10 * (10 * Pow10(3)));
    assert Pow10(9) == 10 * (10 * (10 * Pow10(6)));
  }

  lemma PaddedLength(n: int)
    requires -INT_MAX - 1 <= n <= INT_MAX
    ensures |Padded(n)| == if n >= -999999999 then 10 else 11
  {
    Powers();
    if n < 0 {
      DigitCount(-n, 9);
      DigitCount(-n, 10);
    } else {
      DigitCount(n, 10);
    }
  }

  /** Thirteen characters for every counter value a process reaches in its first 2^31 - 1 calls. */
  lemma LengthIs13(k: nat)
    requires 1 <= k <= INT_MAX
    ensures |NthId(k)| == ID_LENGTH
  {
    PaddedLength(Wrap(k));
  }

  /** Exactly when the fixed width is met: the counter may not have wrapped below -999999999. */
  lemma LengthIs13Exactly(k: nat)
    ensures |NthId(k)| == ID_LENGTH <==> Wrap(k) >= -999999999
    ensures |NthId(k)| != ID_LENGTH ==> |NthId(k)| == ID_LENGTH + 1
  {
    PaddedLength(Wrap(k));
  }

  /** The first identifier that the fixed-width handshake cannot carry. */
  lemma OverlongId()
    ensures |NthId(0x8000_0000)| == 14 && forall k: nat :: 1 <= k < 0x8000_0000 ==> |NthId(k)| == 13
  {
    LengthIs13Exactly(0x8000_0000);
    forall k: nat | 1 <= k < 0x8000_0000
      ensures |NthId(k)| == 13
    {
      LengthIs13(k);
    }
  }

  function Unpad(s: string): string {
    if s != "" && s[0] == ' ' then Unpad(s[1..]) else s
  }

  lemma {:induction false} UnpadSpaces(n: nat, s: string)
    requires s != "" && s[0] != ' '
    ensures Unpad(Spaces(n) + s) == s
  {
    if n == 0 {
      assert Spaces(0) + s == s;
    } else {
      assert (Spaces(n) + s)[1..] == Spaces(n - 1) + s;
      UnpadSpaces(n - 1, s);
    }
  }

  lemma UnpadPadded(n: int)
    ensures Unpad(Padded(n)) == ToString(n)
  {
    var s := ToString(n);
    UnpadSpaces(if |s| < FIELD_WIDTH then FIELD_WIDTH - |s| else 0, s);
    assert Spaces(0) + s == s;
  }

  /** Distinct counter values print differently. */
  lemma FormatInjective(m: int, n: int)
    requires Format(m) == Format(n)
    ensures m == n
  {
    assert Format(m)[3..] == Padded(m) && Format(n)[3..] == Padded(n);
    UnpadPadded(m);
    UnpadPadded(n);
    ParseInvertsToString(m);
    ParseInvertsToString(n);
  }

  lemma WrapsEqualExactly(i: nat, j: nat)
    ensures Wrap(i) == Wrap(j) <==> (i - j) % INT_RANGE == 0
  {
    var qi, qj := i / INT_RANGE, j / INT_RANGE;
    assert i - j == (qi - qj) * INT_RANGE + (i % INT_RANGE - j % INT_RANGE);
  }

  /** Two calls in a process return the same identifier exactly when they are a multiple of 2^32 calls apart. */
  lemma IdsCollideExactly(i: nat, j: nat)
    ensures NthId(i) == NthId(j) <==> (i - j) % INT_RANGE == 0
  {
    WrapsEqualExactly(i, j);
    if NthId(i) == NthId(j) {
      FormatInjective(Wrap(i), Wrap(j));
    }
  }

  /** The identifiers of the first 2^31 - 1 calls are pairwise distinct. */
  lemma IdsDistinct(i: nat, j: nat)
    requires i <= INT_MAX && j <= INT_MAX && i != j
    ensures NthId(i) != NthId(j)
  {
    assert Wrap(i) == i && Wrap(j) == j;
    if Format(i) == Format(j) {
      FormatInjective(i, j);
    }
  }

  /** `u` has this many decimal digits. */
  predicate HasDigits(u: nat, count: nat) {
    count >= 1 && u < Pow10(count) && (count > 1 ==> Pow10(count - 1) <= u)
  }

  /** Digit `j` of `u`, counted from the right. */
  function DigitChar(u: nat, j: nat): int {
    '0' as int + (u / Pow10(j)) % 10
  }

  /** Spaces up to ten characters, a minus sign if the number is negative, and the decimal digits of its absolute
      value. */
  ghost predicate PrintsAs(s: string, n: int, u: nat, count: nat) {
    var printed := count + if n < 0 then 1 else 0;
    && |s| == (if printed < 10 then 10 else printed)
    && (forall i :: 0 <= i < |s| - printed ==> s[i] == ' ')
    && (n < 0 ==> s[|s| - printed] == '-')
    && (forall j :: 0 <= j < count ==> s[|s| - 1 - j] as int == DigitChar(u, j))
  }

  lemma {:induction false} CountedDigits(u: nat, count: nat)
    requires HasDigits(u, count)
    ensures |Digits(u)| == count
  {
    DigitCount(u, count);
    if count > 1 {
      DigitCount(u, count - 1);
    }
  }

  lemma PadsWith(n: int, digits: string)
    requires ToString(n) == (if n < 0 then "-" else "") + digits
    ensures var s, printed := Padded(n), |digits| + if n < 0 then 1 else 0;
      && |s| == (if printed < 10 then 10 else printed)
      && (forall i :: 0 <= i < |s| - printed ==> s[i] == ' ')
      && (n < 0 ==> s[|s| - printed] == '-')
      && s[|s| - |digits|..] == digits
  {
  }

  lemma DigitFromRight(s: string, u: nat, j: nat)
    requires j < |Digits(u)| <= |s| && s[|s| - |Digits(u)|..] == Digits(u)
    ensures s[|s| - 1 - j] as int == DigitChar(u, j)
  {
    var digits := Digits(u);
    assert s[|s| - 1 - j] == s[|s| - |digits|..][|digits| - 1 - j];
    DigitAt(u, j);
  }

  lemma DigitsFromRight(s: string, u: nat)
    requires |Digits(u)| <= |s| && s[|s| - |Digits(u)|..] == Digits(u)
    ensures forall j :: 0 <= j < |Digits(u)| ==> s[|s| - 1 - j] as int == DigitChar(u, j)
  {
    forall j | 0 <= j < |Digits(u)|
      ensures s[|s| - 1 - j] as int == DigitChar(u, j)
    {
      DigitFromRight(s, u, j);
    }
  }

  lemma PaddedIsPrinted(n: int, u: nat, count: nat)
    requires u == (if n < 0 then -n else n) && HasDigits(u, count)
    ensures PrintsAs(Padded(n), n, u, count)
  {
    CountedDigits(u, count);
    PadsWith(n, Digits(u));
    DigitsFromRight(Padded(n), u);
  }

  /** How an identifier is written: `sprintf` with "ID:%10d". */
  lemma IdIsPrinted(k: nat, n: int, u: nat, count: nat)
    requires n == Wrap(k) && u == (if n < 0 then -n else n) && HasDigits(u, count)
    ensures |NthId(k)| >= 3 && NthId(k)[..3] == "ID:"
    ensures PrintsAs(NthId(k)[3..], n, u, count)
  {
    PaddedIsPrinted(n, u, count);
    assert NthId(k)[3..] == Padded(n);
  }

  /** Every character of an identifier is an ASCII character, one byte in a C string. */
  lemma IdIsAscii(k: nat)
    ensures forall i :: 0 <= i < |NthId(k)| ==> NthId(k)[i] as int < 128
  {
    var s := ToString(Wrap(k));
    assert forall i :: 0 <= i < |s| ==> s[i] == '-' || IsDigit(s[i]);
    assert forall i :: 0 <= i < |Padded(Wrap(k))| ==> Padded(Wrap(k))[i] as int < 128;
  }
}
