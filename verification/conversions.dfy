/**
 * The two conversions the older compiler writes out inline: the machine
 * code `medusa_int_to_string` emits turns a signed 64-bit integer into its
 * decimal text in a fresh 256-byte heap buffer, and the code
 * `medusa_string_to_int` emits reads such a text back. Registers are 64-bit
 * words: `Reg` holds the bit pattern, `Signed` reads it as two's complement.
 */
module LegacyConversions {
  import opened MedusaTypes

  type Byte = b: int | 0 <= b < 256

  /** The contents of a 64-bit register. */
  type Reg = r: int | 0 <= r < 0x1_0000_0000_0000_0000

  const Word: int := 0x1_0000_0000_0000_0000
  const HalfWord: int := 0x8000_0000_0000_0000

  predicate IsI64(v: int) { -HalfWord <= v < HalfWord }

  /** The bit pattern of `v` modulo 2^64: what a 64-bit add, shift or subtract leaves. */
  function Unsigned(v: int): (r: Reg)
    ensures 0 <= v < Word ==> r == v
  {
    v % Word
  }

  function Signed(r: Reg): (v: int)
    ensures IsI64(v) && Unsigned(v) == r
  {
    if r < HalfWord then r else r - Word
  }

  /** `neg`: two's complement negation, which leaves the bit pattern of i64::MIN unchanged. */
  function Neg(r: Reg): Reg
  {
    (Word - r) % Word
  }

  function Abs(v: int): nat
  {
    if v < 0 then -v else v
  }

  /** The byte codes of a text of single-byte characters. */
  function Bytes(t: string): (b: seq<Byte>)
    requires forall k :: 0 <= k < |t| ==> t[k] as int < 256
    ensures |b| == |t| && forall k :: 0 <= k < |t| ==> b[k] == t[k] as int
  {
    seq(|t|, k requires 0 <= k < |t| => t[k] as int)
  }

  /** The decimal text of a 64-bit integer: a minus sign for a negative one, then the digits of its magnitude. */
  function DecimalText(v: int): (s: seq<Byte>)
    requires IsI64(v)
    ensures |s| >= 1
  {
    (if v < 0 then [45] else []) + Bytes(NatText(Abs(v)))
  }

  /* ---------------- int to string ---------------- */

  /** The digits of `n` in the order the division loop strips them: least significant first. */
  function LowDigitsFirst(n: nat): (s: seq<Byte>)
    ensures |s| >= 1
    decreases n
  {
    [48 + n % 10] + (if n < 10 then [] else LowDigitsFirst(n / 10))
  }

  /** Reversing a sequence that starts with `a` ends it with `a`. */
  lemma ReversedFront<T>(a: T, s: seq<T>)
    ensures Reversed([a] + s) == Reversed(s) + [a]
  {
    var r := [a] + s;
    assert forall k :: 0 <= k < |r| ==> Reversed(r)[k] == (Reversed(s) + [a])[k];
  }

  lemma BytesAppend(t: string, c: char)
    requires forall k :: 0 <= k < |t| ==> t[k] as int < 256
    requires c as int < 256
    ensures Bytes(t + [c]) == Bytes(t) + [c as int]
  {
  }

  /** Read backwards, the stripped digits are the decimal text. */
  lemma {:induction false} LowDigitsFirstReversed(n: nat)
    ensures Reversed(LowDigitsFirst(n)) == Bytes(NatText(n))
    decreases n
  {
    if n < 10 {
      assert LowDigitsFirst(n) == [48 + n];
    } else {
      LowDigitsFirstReversed(n / 10);
      ReversedFront(48 + n % 10, LowDigitsFirst(n / 10));
      BytesAppend(NatText(n / 10), DigitChar(n % 10));
    }
  }

  function Pow10(k: nat): nat
  {
    if k == 0 then 1 else 10 * Pow10(k - 1)
  }

  lemma {:induction false} Pow10Add(a: nat, b: nat)
    ensures Pow10(a + b) == Pow10(a) * Pow10(b)
    decreases a
  {
    if a > 0 {
      Pow10Add(a - 1, b);
    }
  }

  lemma {:induction false} LowDigitsLength(n: nat, k: nat)
    requires 1 <= k && n < Pow10(k)
    ensures |LowDigitsFirst(n)| <= k
    decreases k
  {
    if n >= 10 {
      assert k >= 2;
      LowDigitsLength(n / 10, k - 1);
    }
  }

  /** Every 64-bit magnitude has at most twenty digits. */
  lemma TwentyDigits(n: nat)
    requires n < Word
    ensures |LowDigitsFirst(n)| <= 20
  {
    assert Pow10(10) == 10_000_000_000;
    Pow10Add(10, 10);
    LowDigitsLength(n, 20);
  }

  /**
   * The emitted `int_to_string`: a zeroed 256-byte buffer; the sign is
   * remembered in `r15` and the value made positive with `neg`; the digits
   * are stripped; a minus sign goes after them; and the text is reversed in
   * place.
   */
  method EmittedIntToString(v: int) returns (buf: array<Byte>, len: nat)
    requires IsI64(v)
    ensures buf.Length == 256 && len <= buf.Length
    ensures buf[..len] == DecimalText(v)
    ensures forall k :: len <= k < buf.Length ==> buf[k] == 0
  {
    buf := new Byte[256](_ => 0);
    var r9: Reg := Unsigned(v);
    var r15 := 0;
    if Signed(r9) < 0 {
      r15 := 1;
      r9 := Neg(r9);
    }
    assert r9 == Abs(v);
    var rcx := StripDigits(buf, r9);
    ghost var stripped := buf[..rcx];
    if r15 == 1 {
      buf[rcx] := 45;
      rcx := rcx + 1;
      assert buf[..rcx] == stripped + [45];
    }
    ghost var before := buf[..rcx];
    ReverseText(buf, rcx);
    len := rcx;
    LowDigitsFirstReversed(Abs(v));
    if v < 0 {
      assert before[..|before| - 1] == stripped;
    }
  }

  /**
   * With the digits of `n` still to strip from position `at` on, one
   * division strips the next: its remainder is the digit there, and a
   * quotient of 0 leaves no more.
   */
  lemma StripOne(digits: seq<Byte>, at: nat, n: nat)
    requires at <= |digits| && digits[at..] == LowDigitsFirst(n)
    ensures at < |digits| && digits[at] == 48 + n % 10
    ensures n / 10 != 0 ==> digits[at + 1..] == LowDigitsFirst(n / 10)
    ensures n / 10 == 0 ==> at + 1 == |digits|
  {
    assert digits[at..][1..] == digits[at + 1..];
  }

  /**
   * The digit loop: divide by 10, write `'0'` plus the remainder, until the
   * quotient is 0, at least once. `idiv` divides `rdx:rax` with `rdx`
   * cleared, so the dividend is the register read as unsigned, which keeps
   * even the magnitude of i64::MIN right.
   */
  method StripDigits(buf: array<Byte>, m: Reg) returns (rcx: nat)
    requires buf.Length == 256 && forall k :: 0 <= k < buf.Length ==> buf[k] == 0
    modifies buf
    ensures rcx < buf.Length && buf[..rcx] == LowDigitsFirst(m)
    ensures forall k :: rcx <= k < buf.Length ==> buf[k] == 0
  {
    TwentyDigits(m);
    ghost var digits := LowDigitsFirst(m);
    var r9: Reg := m;
    rcx := 0;
    var more := true;
    while more
      invariant rcx <= |digits|
      invariant more ==> digits[rcx..] == LowDigitsFirst(r9)
      invariant !more ==> rcx == |digits|
      invariant forall k :: 0 <= k < rcx ==> buf[k] == digits[k]
      invariant forall k :: rcx <= k < buf.Length ==> buf[k] == 0
      decreases |digits| - rcx, more
    {
      StripOne(digits, rcx, r9);
      var digit := r9 % 10;
      r9 := r9 / 10;
      buf[rcx] := 48 + digit;
      rcx := rcx + 1;
      more := r9 != 0;
    }
    assert buf[..rcx] == digits;
  }

  /**
   * The swap loop: a one-character text is left alone; otherwise positions
   * `i` and `len - 1 - i` are exchanged for `i` from 0 while `i < len / 2`.
   */
  method ReverseText(buf: array<Byte>, len: nat)
    requires 1 <= len <= buf.Length
    modifies buf
    ensures buf[..len] == Reversed(old(buf[..len]))
    ensures forall k :: len <= k < buf.Length ==> buf[k] == old(buf[k])
  {
    if len == 1 {
      return;
    }
    var half := len / 2;
    var i, j := 0, len - 1;
    while i != half
      invariant 0 <= i <= half && j == len - 1 - i
      invariant forall k :: 0 <= k < i ==> buf[k] == old(buf[len - 1 - k]) && buf[len - 1 - k] == old(buf[k])
      invariant forall k :: i <= k < len - i ==> buf[k] == old(buf[k])
      invariant forall k :: len <= k < buf.Length ==> buf[k] == old(buf[k])
    {
      buf[i], buf[j] := buf[j], buf[i];
      i, j := i + 1, j - 1;
    }
  }

  /* ---------------- string to int ---------------- */

  /** The byte at `i`; the heap buffer is zeroed beyond the text. */
  function ByteAt(s: seq<Byte>, i: nat): Byte
  {
    if i < |s| then s[i] else 0
  }

  /** One leading `+` or `-` is skipped. */
  function SignSkip(s: seq<Byte>): nat
  {
    if ByteAt(s, 0) == 43 || ByteAt(s, 0) == 45 then 1 else 0
  }

  /**
   * The digit loop from `i` on: each byte at or above 32 (space) adds
   * `byte - 48` to ten times the result, in 64-bit arithmetic; the first byte
   * below 32 ends the text. Bytes are not checked to be digits.
   */
  function Accumulate(s: seq<Byte>, i: nat, acc: Reg): Reg
    decreases |s| - i
  {
    if ByteAt(s, i) < 32 then acc
    else Accumulate(s, i + 1, Unsigned(acc * 10 + ByteAt(s, i) - 48))
  }

  /** What the emitted `string_to_int` computes once each character is held zero-extended (the corrected loop). */
  function ParseDecimal(s: seq<Byte>): int
  {
    var acc := Accumulate(s, SignSkip(s), 0);
    Signed(if ByteAt(s, 0) == 45 then Neg(acc) else acc)
  }

  /**
   * The emitted `string_to_int` with its one correction: each character is
   * read into `rdx` whole (`movzx`), so no stale bits reach the comparison.
   * The loop as written is `StringToIntAsWritten` below.
   */
  method CorrectedStringToInt(s: seq<Byte>) returns (value: int)
    ensures value == ParseDecimal(s)
  {
    var rbx: Reg := 0;
    var rcx := 0;
    var r15 := 0;
    var rdx := ByteAt(s, 0);
    if rdx == 43 {
      rcx := 1;
    } else if rdx == 45 {
      r15 := 1;
      rcx := 1;
    }
    rdx := ByteAt(s, rcx);
    while rdx >= 32
      invariant rcx <= |s|
      invariant rdx == ByteAt(s, rcx)
      invariant Accumulate(s, rcx, rbx) == Accumulate(s, SignSkip(s), 0)
      decreases |s| - rcx
    {
      rbx := Unsigned(rbx * 10 + rdx - 48);
      rcx := rcx + 1;
      rdx := ByteAt(s, rcx);
    }
    if r15 == 1 {
      rbx := Neg(rbx);
    }
    value := Signed(rbx);
  }

  /* ---------------- round trip ---------------- */

  /** A prefix of a digit string is worth no more than the whole. */
  lemma {:induction false} PrefixValue(t: string, i: nat)
    requires forall k :: 0 <= k < |t| ==> IsDigit(t[k])
    requires i <= |t|
    ensures DigitsValue(t[..i]) <= DigitsValue(t)
    decreases |t| - i
  {
    if i < |t| {
      PrefixValue(t, i + 1);
      assert t[..i + 1][..i] == t[..i];
      assert DigitsValue(t[..i + 1]) == 10 * DigitsValue(t[..i]) + DigitValue(t[i]);
      assert DigitsValue(t[..i]) <= DigitsValue(t[..i + 1]);
    } else {
      assert t[..i] == t;
    }
  }

  /** Reading digits behind `p` from position `i`, with the value of the digits before it. */
  lemma {:induction false} AccumulateDigits(p: seq<Byte>, t: string, i: nat)
    requires forall k :: 0 <= k < |t| ==> IsDigit(t[k])
    requires i <= |t| && DigitsValue(t) < Word
    ensures Accumulate(p + Bytes(t), |p| + i, Unsigned(DigitsValue(t[..i]))) == DigitsValue(t)
    decreases |t| - i
  {
    var s := p + Bytes(t);
    PrefixValue(t, i);
    if i == |t| {
      assert t[..i] == t;
    } else {
      PrefixValue(t, i + 1);
      assert t[..i + 1][..i] == t[..i];
      assert ByteAt(s, |p| + i) == t[i] as int;
      AccumulateDigits(p, t, i + 1);
    }
  }

  /** The digits of a text behind a prefix `p` read as their value. */
  lemma ReadsDigits(p: seq<Byte>, t: string)
    requires forall k :: 0 <= k < |t| ==> IsDigit(t[k])
    requires DigitsValue(t) < Word
    ensures Accumulate(p + Bytes(t), |p|, 0) == DigitsValue(t)
  {
    assert t[..0] == [];
    AccumulateDigits(p, t, 0);
  }

  /** What the corrected `string_to_int` reads back from the emitted `int_to_string`'s text is the integer; `AsWrittenRoundTrip` states it for the loop as written. */
  lemma DecimalRoundTrip(v: int)
    requires IsI64(v)
    ensures ParseDecimal(DecimalText(v)) == v
  {
    var t := NatText(Abs(v));
    NatTextRoundTrip(Abs(v));
    var s := DecimalText(v);
    if v >= 0 {
      assert s == [] + Bytes(t);
      ReadsDigits([], t);
      assert ByteAt(s, 0) == t[0] as int && IsDigit(t[0]);
      assert Accumulate(s, SignSkip(s), 0) == v;
    } else {
      ReadsDigits([45], t);
      assert Accumulate(s, SignSkip(s), 0) == -v;
      assert Neg(-v) == Word + v;
    }
  }

  /**
   * The loop stops at the first control character and takes any other byte
   * for a digit; without digits the value is 0.
   */
  lemma ParseDecimalExamples()
    ensures ParseDecimal([]) == 0 && ParseDecimal([45]) == 0
    ensures ParseDecimal([45, 49, 50, 13, 10]) == -12
    ensures ParseDecimal([43, 55]) == 7
    ensures ParseDecimal([54, 97, 99, 50]) == 11412
  {
  }

  /* ---------------- `mov dl` as written ---------------- */

  /**
   * The digit loop as written: `mov dl, [rax + rcx]` replaces only the low
   * byte of `rdx`, and `cmp rdx, 32` reads all of it, signed. After a byte
   * below `'0'`, `sub rdx, 48` leaves the upper bytes all ones, so the next
   * character reads as negative and ends the loop.
   */
  function AccumulateAsWritten(s: seq<Byte>, i: nat, acc: Reg, rdx: Reg): Reg
    requires rdx < 256 || rdx >= Word - 256
    decreases |s| - i
  {
    var dl: Reg := rdx - rdx % 256 + ByteAt(s, i);
    if Signed(dl) < 32 then acc
    else
      var held := Unsigned(dl - 48);
      AccumulateAsWritten(s, i + 1, Unsigned(acc * 10 + held), held)
  }

  function StringToIntAsWritten(s: seq<Byte>): int
  {
    var acc := AccumulateAsWritten(s, SignSkip(s), 0, ByteAt(s, 0));
    Signed(if ByteAt(s, 0) == 45 then Neg(acc) else acc)
  }

  /** With no byte between space and `'0'` in the text, the stale bits never show. */
  lemma {:induction false} AsWrittenAgreesWithoutPunctuation(s: seq<Byte>, i: nat, acc: Reg, rdx: Reg)
    requires rdx < 256
    requires forall k :: i <= k < |s| ==> !(32 <= s[k] < 48)
    ensures AccumulateAsWritten(s, i, acc, rdx) == Accumulate(s, i, acc)
    decreases |s| - i
  {
    assert rdx - rdx % 256 == 0;
    if ByteAt(s, i) >= 32 {
      AsWrittenAgreesWithoutPunctuation(s, i + 1, Unsigned(acc * 10 + ByteAt(s, i) - 48), ByteAt(s, i) - 48);
    }
  }

  /** `"1.5\r\n"` reads as 8 as written, where the loop that holds each character whole reads 85. */
  lemma StaleHighBitsCounterexample()
    ensures StringToIntAsWritten([49, 46, 53, 13, 10]) == 8
    ensures ParseDecimal([49, 46, 53, 13, 10]) == 85
  {
    var s: seq<Byte> := [49, 46, 53, 13, 10];
    var stale: Reg := Word - 2;
    assert stale % 256 == 254;
    assert Signed(Word - 256 + 53) == -203;
    assert AccumulateAsWritten(s, 2, 8, stale) == 8;
    assert Unsigned(46 - 48) == stale && Unsigned(10 + stale) == 8;
    assert AccumulateAsWritten(s, 1, 1, 1) == 8;
    assert AccumulateAsWritten(s, 0, 0, 49) == 8;
    assert Accumulate(s, 2, 8) == 85;
    assert Accumulate(s, 0, 0) == 85;
  }

  /** After its sign, the decimal text of an integer holds digits only. */
  lemma DigitsAfterSign(v: int)
    requires IsI64(v)
    ensures var s := DecimalText(v);
      SignSkip(s) == (if v < 0 then 1 else 0)
      && forall k :: SignSkip(s) <= k < |s| ==> 48 <= s[k] < 58
  {
    var s := DecimalText(v);
    var t := NatText(Abs(v));
    var b := Bytes(t);
    assert forall k :: 0 <= k < |b| ==> 48 <= b[k] < 58 by {
      forall k | 0 <= k < |b| ensures 48 <= b[k] < 58 {
        assert IsDigit(t[k]);
      }
    }
    if v < 0 {
      assert s == [45] + b;
      assert forall k :: 1 <= k < |s| ==> s[k] == b[k - 1];
    } else {
      assert s == b;
    }
  }

  /**
   * The text the emitted `int_to_string` writes holds nothing but a sign and
   * digits, so the `string_to_int` main.rs emits, stale bits and all, reads
   * it back as the integer.
   */
  lemma AsWrittenRoundTrip(v: int)
    requires IsI64(v)
    ensures StringToIntAsWritten(DecimalText(v)) == v
  {
    var s := DecimalText(v);
    DecimalRoundTrip(v);
    DigitsAfterSign(v);
    AsWrittenAgreesWithoutPunctuation(s, SignSkip(s), 0, ByteAt(s, 0));
  }
}
