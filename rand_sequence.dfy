/** poRandSequence_string of lib/randSequence.c: a string of upper-case hex
    digits whose length and digits come from successive nrand48 draws.  The
    murmur-hash seeding and nrand48 itself are not modelled: the draws are
    given as a sequence, the first one for the length and each later one for
    up to six digits. */
module RandSequence {

  /** The length computation's outcome: a length, or the remainder by zero. */
  datatype Length = DivByZero | Len(n: nat)

  /** One nrand48 result: a non-negative long below 2^31. */
  type Draw = x: nat | x < 0x8000_0000

  /** A value of four bits, as the output loop masks it with 0x0F. */
  type Nibble = x: int | 0 <= x < 16

  /** The characters '0'..'9' and 'A'..'F'. */
  predicate IsUpperHex(c: char) {
    '0' <= c <= '9' || 'A' <= c <= 'F'
  }

  /** The value an upper-case hex digit stands for. */
  function HexValue(c: char): (v: Nibble)
    requires IsUpperHex(c)
  {
    if c <= '9' then c as int - '0' as int else c as int - 'A' as int + 10
  }

  /** _po_int2char: the ASCII code plus 48 below ten, plus 55 from ten on. */
  function Int2Char(i: Nibble): (c: char)
    ensures IsUpperHex(c) && HexValue(c) == i
    ensures i < 10 <==> '0' <= c <= '9'
  {
    if i < 10 then (i + 48) as char else (i + 55) as char
  }

  /** Upper-case hex digits and their values are in one-to-one correspondence. */
  lemma Int2CharInverse(c: char)
    requires IsUpperHex(c)
    ensures Int2Char(HexValue(c)) == c
  {
  }

  /** Byte `k` of `val` as it lies in memory on a little-endian machine:
      the `ptr[k]` of the output loop. */
  function ByteAt(val: nat, k: nat): nat {
    if k == 0 then val % 256 else ByteAt(val / 256, k - 1)
  }

  /** Digit `j` of one draw as the output loop reads it,
      `(ptr[j/2] >> (4*(j%2))) & 0x0F`: the low half of each byte, then its
      high half. */
  function NibbleAt(val: nat, j: nat): (n: nat)
    ensures n < 16
  {
    var b := ByteAt(val, j / 2);
    (if j % 2 == 0 then b else b / 16) % 16
  }

  /** Hex digit `j` of `val`, counted from the least significant one. */
  function HexDigit(val: nat, j: nat): (n: nat)
    ensures n < 16
  {
    if j == 0 then val % 16 else HexDigit(val / 16, j - 1)
  }

  lemma ShiftTwice(val: nat)
    ensures val / 16 / 16 == val / 256
  {
  }

  lemma LowByteArithmetic(val: nat)
    ensures (val % 256) % 16 == val % 16 && (val % 256) / 16 % 16 == (val / 16) % 16
  {
    var q, r := val / 256, val % 256;
    var a, b := r / 16, r % 16;
    assert r == 16 * a + b && 0 <= b < 16 && 0 <= a < 16;
    assert val == 16 * (16 * q + a) + b;
    assert val / 16 == 16 * q + a && val % 16 == b;
  }

  /** The first two digits come from the low byte. */
  lemma LowByteDigits(val: nat)
    ensures NibbleAt(val, 0) == HexDigit(val, 0) && NibbleAt(val, 1) == HexDigit(val, 1)
  {
    LowByteArithmetic(val);
  }

  /** Past the first byte, digit `j` is digit `j - 2` of the value shifted by a byte. */
  lemma NibbleShift(val: nat, j: nat)
    requires j >= 2
    ensures NibbleAt(val, j) == NibbleAt(val / 256, j - 2)
  {
    assert (j - 2) / 2 == j / 2 - 1 && (j - 2) % 2 == j % 2;
  }

  lemma HexShift(val: nat, j: nat)
    requires j >= 2
    ensures HexDigit(val, j) == HexDigit(val / 256, j - 2)
  {
    ShiftTwice(val);
  }

  /** Reading the bytes low half first means reading the hex digits of the
      draw from the least significant one up. */
  lemma {:induction false} NibbleIsHexDigit(val: nat, j: nat)
    ensures NibbleAt(val, j) == HexDigit(val, j)
  {
    if j < 2 {
      LowByteDigits(val);
    } else {
      NibbleShift(val, j);
      HexShift(val, j);
      NibbleIsHexDigit(val / 256, j - 2);
    }
  }

  /** The length as written: `minLen + r % (maxLen - minLen)`; DivByZero
      stands for the remainder by zero when minLen == maxLen, which the guard
      `minLen <= maxLen` lets through. */
  function SequenceLengthAsWritten(minLen: nat, maxLen: nat, r: Draw): (len: Length)
    requires minLen <= maxLen
    ensures len.DivByZero? <==> minLen == maxLen
    ensures len.Len? ==> minLen <= len.n < maxLen
  {
    if maxLen - minLen == 0 then DivByZero else Len(minLen + r % (maxLen - minLen))
  }

  /** The input that shows it: equal bounds pass the guard and divide by zero. */
  lemma EqualBoundsDivideByZero()
    ensures SequenceLengthAsWritten(9, 9, 0).DivByZero?
  {
  }

  /** The length with the guard tightened to minLen < maxLen: always within
      [minLen, maxLen), so a buffer of maxLen characters holds the string and
      its terminator. */
  function SequenceLength(minLen: nat, maxLen: nat, r: Draw): (len: nat)
    requires minLen < maxLen
    ensures minLen <= len < maxLen
    ensures SequenceLengthAsWritten(minLen, maxLen, r) == Len(len)
  {
    minLen + r % (maxLen - minLen)
  }

  /** Draws needed for a string of `len` digits: the length draw and one per six digits. */
  function DrawsNeeded(len: nat): nat {
    1 + (len + 5) / 6
  }

  /** Character `k` of a string shorter than `len` comes from one of those draws. */
  lemma DrawCovers(k: nat, len: nat)
    requires k < len
    ensures 1 + k / 6 < DrawsNeeded(len)
  {
  }

  /** Character `k` of the string: digit k % 6 of draw 1 + k / 6. */
  function HexChar(draws: seq<Draw>, k: nat): char
    requires 1 + k / 6 < |draws|
  {
    Int2Char(NibbleAt(draws[1 + k / 6], k % 6))
  }

  /** The string the draws spell, `len` characters long. */
  function HexSequence(draws: seq<Draw>, len: nat): (s: seq<char>)
    requires DrawsNeeded(len) <= |draws|
    ensures |s| == len
    ensures forall k :: 0 <= k < len ==> IsUpperHex(s[k])
  {
    seq(len, k requires 0 <= k < len => HexChar(draws, k))
  }

  /** Each draw gives at most six characters, its hex digits from the least
      significant up. */
  lemma HexSequenceDigits(draws: seq<Draw>, len: nat, d: nat, j: nat)
    requires DrawsNeeded(len) <= |draws| && j < 6 && 6 * d + j < len
    ensures HexValue(HexSequence(draws, len)[6 * d + j]) == HexDigit(draws[1 + d], j)
  {
    assert (6 * d + j) / 6 == d && (6 * d + j) % 6 == j;
    NibbleIsHexDigit(draws[1 + d], j);
  }

  /** poRandSequence_string: writes `len` hex digits into `buf` and a '\0'
      after them, stores `len` in `*rlen` when rlen is not NULL, and returns
      the start of `buf`. */
  method RandSequenceString(draws: seq<Draw>, buf: array<char>, rlen: array?<nat>, minLen: nat, maxLen: nat)
    returns (ret: array<char>)
    requires minLen < maxLen && minLen > 8
    requires DrawsNeeded(maxLen) <= |draws| && maxLen <= buf.Length
    requires rlen != null ==> rlen.Length == 1
    modifies buf, rlen
    ensures ret == buf
    ensures var len := SequenceLength(minLen, maxLen, draws[0]);
      buf[..len] == HexSequence(draws, len) && buf[len] == '\0' && buf[len + 1..] == old(buf[len + 1..])
    ensures rlen != null ==> rlen[0] == SequenceLength(minLen, maxLen, draws[0])
  {
    ret := buf;
    var len := SequenceLength(minLen, maxLen, draws[0]);
    ghost var total := len;
    if rlen != null {
      rlen[0] := len;
    }
    var i := 0;   // how far the `buf` pointer has moved
    var d := 1;   // the next draw
    DrawCovers(total, maxLen);
    while len > 0
      invariant 0 <= i <= total < buf.Length && i + len == total && total < maxLen && 1 <= d && i <= 6 * (d - 1)
      invariant len > 0 ==> i == 6 * (d - 1)
      invariant forall k :: 0 <= k < i ==> 1 + k / 6 < |draws| && buf[k] == HexChar(draws, k)
      invariant forall k :: i <= k < buf.Length ==> buf[k] == old(buf[k])
      invariant rlen != null ==> rlen[0] == total
    {
      var val := draws[d];
      var j := 0;
      while len > 0 && j < 6
        invariant 0 <= j <= 6 && i == 6 * (d - 1) + j && i + len == total && total < maxLen
        invariant forall k :: 0 <= k < i ==> 1 + k / 6 < |draws| && buf[k] == HexChar(draws, k)
        invariant forall k :: i <= k < buf.Length ==> buf[k] == old(buf[k])
        invariant rlen != null ==> rlen[0] == total
      {
        assert i / 6 == d - 1 && i % 6 == j;
        DrawCovers(i, maxLen);
        buf[i] := Int2Char(NibbleAt(val, j));
        i := i + 1;
        len := len - 1;
        j := j + 1;
      }
      d := d + 1;
    }
    buf[i] := '\0';
  }
}
