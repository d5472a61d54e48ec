/**
 * Solidity ABI words as the SQD provider decodes them (src/providers/sqd.ts): hexadecimal digits,
 * two's complement, and the five words of a Uniswap V3 Swap event.
 */
module AbiWords {
  import opened Common

  function Power(n: nat): int {
    if n == 0 then 1 else 16 * Power(n - 1)
  }

  lemma {:induction false} PowerIsPositive(n: nat)
    ensures Power(n) >= 1
  {
    if n > 0 { PowerIsPositive(n - 1); }
  }

  /** 1 << (4 * n - 1) */
  function Midpoint(n: nat): int
    requires n > 0
  {
    8 * Power(n - 1)
  }

  function DigitOf(c: char): Option<int> {
    if '0' <= c <= '9' then Some(c as int - '0' as int)
    else if 'a' <= c <= 'f' then Some(c as int - 'a' as int + 10)
    else if 'A' <= c <= 'F' then Some(c as int - 'A' as int + 10)
    else None
  }

  function DigitChar(d: int): char
    requires 0 <= d < 16
  {
    if d < 10 then ('0' as int + d) as char else ('a' as int + d - 10) as char
  }

  /** BigInt('0x' + digits); None where it throws. */
  function HexValue(digits: string): (r: Option<int>)
    ensures digits == "" ==> r.None?
  {
    if digits == "" then None
    else
      var shorter, last := digits[..|digits| - 1], DigitOf(digits[|digits| - 1]);
      if last.None? then None
      else if shorter == "" then last
      else
        match HexValue(shorter)
        case None => None
        case Some(v) => Some(16 * v + last.value)
  }

  function Unprefixed(hex: string): string {
    if |hex| >= 2 && hex[0] == '0' && hex[1] == 'x' then hex[2..] else hex
  }

  /** Two's complement over the word's own width. */
  function DecodeSigned(hex: string): Option<int> {
    var digits := Unprefixed(hex);
    match HexValue(digits)
    case None => None
    case Some(v) =>
      Some(if v >= Midpoint(|digits|) then v - Power(|digits|) else v)
  }

  function DecodeUnsigned(hex: string): Option<int> {
    var digits := Unprefixed(hex);
    HexValue(if digits == "" then "0" else digits)
  }

  /** The low 4n bits of v, most significant digit first. */
  function Digits(v: int, n: nat): string
    decreases n
  {
    if n == 0 then "" else Digits(v / 16, n - 1) + [DigitChar(v % 16)]
  }

  /** The n-digit two's complement word of x. */
  function Word(x: int, n: nat): string {
    Digits(if x < 0 then x + Power(n) else x, n)
  }

  predicate Lowercase(word: string) {
    forall i :: 0 <= i < |word| ==> '0' <= word[i] <= '9' || 'a' <= word[i] <= 'f'
  }

  lemma DigitRoundTrip(d: int)
    requires 0 <= d < 16
    ensures DigitOf(DigitChar(d)) == Some(d)
    ensures '0' <= DigitChar(d) <= '9' || 'a' <= DigitChar(d) <= 'f'
  {
  }

  lemma {:induction false} DigitsAreLowercase(v: int, n: nat)
    ensures |Digits(v, n)| == n && Lowercase(Digits(v, n))
    decreases n
  {
    if n > 0 {
      DigitsAreLowercase(v / 16, n - 1);
      DigitRoundTrip(v % 16);
    }
  }

  lemma Split(v: int)
    ensures v == 16 * (v / 16) + v % 16 && 0 <= v % 16 < 16
  {
  }

  lemma Joins(v: int, d: int)
    requires 0 <= d < 16
    ensures (16 * v + d) / 16 == v && (16 * v + d) % 16 == d
  {
  }

  lemma HexValueSnoc(shorter: string, last: char)
    ensures HexValue(shorter + [last]) ==
            if DigitOf(last).None? then None
            else if shorter == "" then DigitOf(last)
            else if HexValue(shorter).None? then None
            else Some(16 * HexValue(shorter).value + DigitOf(last).value)
  {
    assert (shorter + [last])[..|shorter|] == shorter;
  }

  /** The digit characters, in either case. */
  lemma DigitIs(c: char, d: int)
    ensures DigitOf(c) == Some(d) <==>
            0 <= d < 16 && (c == "0123456789abcdef"[d] || c == "0123456789ABCDEF"[d])
  {
  }

  /** Digits weigh by place: the first of n + 1 stands for 16^n times its value, and one that is none spoils the number. */
  lemma {:induction false} HexValueFront(first: char, rest: string)
    ensures HexValue([first]) == DigitOf(first)
    ensures rest != "" ==>
              HexValue([first] + rest) ==
                if DigitOf(first).None? || HexValue(rest).None? then None
                else Some(DigitOf(first).value * Power(|rest|) + HexValue(rest).value)
    decreases |rest|
  {
    HexValueSnoc("", first);
    assert "" + [first] == [first];
    if rest != "" {
      var shorter, last := rest[..|rest| - 1], rest[|rest| - 1];
      assert rest == shorter + [last] && [first] + rest == [first] + shorter + [last];
      HexValueFront(first, shorter);
      HexValueSnoc(shorter, last);
      HexValueSnoc([first] + shorter, last);
      assert Power(|rest|) == 16 * Power(|rest| - 1) && Power(0) == 1;
      hide HexValue, DigitOf, Power;
      if shorter == "" {
        assert [first] + shorter == [first];
      } else if DigitOf(first).Some? && HexValue(shorter).Some? {
        Shifted(DigitOf(first).value, Power(|shorter|), HexValue(shorter).value);
      }
    }
  }

  lemma Shifted(d: int, p: int, v: int)
    ensures 16 * (d * p + v) == d * (16 * p) + 16 * v
  {
  }

  /** The prefix is 0x and nothing else, and comes off once. */
  lemma UnprefixedIs(text: string)
    ensures Unprefixed("0x" + text) == text
    ensures !("0x" <= text) ==> Unprefixed(text) == text
  {
    assert ("0x" + text)[2..] == text;
    if |text| >= 2 && text[0] == '0' && text[1] == 'x' {
      assert text[..2] == "0x";
    }
  }

  lemma {:induction false} HexValueFits(digits: string)
    ensures HexValue(digits).Some? ==> 0 <= HexValue(digits).value < Power(|digits|)
  {
    if digits != "" {
      var shorter, last := digits[..|digits| - 1], digits[|digits| - 1];
      assert digits == shorter + [last];
      HexValueFits(shorter);
      HexValueSnoc(shorter, last);
      assert Power(|digits|) == 16 * Power(|digits| - 1) && Power(0) == 1;
    }
  }

  lemma SignedIs(digits: string, x: int)
    requires !("0x" <= digits) && digits != ""
    ensures var whole := Power(|digits|);
            DecodeSigned(digits) == Some(x) <==>
            -whole <= 2 * x < whole && HexValue(digits) == Some(if x < 0 then x + whole else x)
  {
    hide Power, Midpoint, HexValue, Unprefixed;
    UnprefixedIs(digits);
    HexValueFits(digits);
    MidpointIsHalf(|digits|);
  }

  lemma UnsignedIs(digits: string, x: int)
    requires !("0x" <= digits)
    ensures DecodeUnsigned(digits) == Some(x) <==> if digits == "" then x == 0 else HexValue(digits) == Some(x)
  {
    hide HexValue, Unprefixed, Power;
    UnprefixedIs(digits);
    HexValueFront('0', "");
    assert ['0'] == "0";
  }

  lemma PrefixedAlike(digits: string)
    requires !("0x" <= digits)
    ensures DecodeSigned("0x" + digits) == DecodeSigned(digits) && DecodeUnsigned("0x" + digits) == DecodeUnsigned(digits)
    ensures DecodeSigned("").None?
  {
    hide HexValue, Unprefixed, Power, Midpoint;
    UnprefixedIs(digits);
    UnprefixedIs("");
  }

  /** On any text: the signed value of the width that agrees with the digits modulo 16^n; an empty unsigned word is zero. */
  lemma DecodedIs(digits: string, x: int)
    requires !("0x" <= digits)
    ensures DecodeSigned("0x" + digits) == DecodeSigned(digits) && DecodeUnsigned("0x" + digits) == DecodeUnsigned(digits)
    ensures DecodeUnsigned(digits) == Some(x) <==> if digits == "" then x == 0 else HexValue(digits) == Some(x)
    ensures var whole := Power(|digits|);
            DecodeSigned(digits) == Some(x) <==>
            digits != "" && -whole <= 2 * x < whole && HexValue(digits) == Some(if x < 0 then x + whole else x)
  {
    hide HexValue, Power, DecodeSigned, DecodeUnsigned;
    PrefixedAlike(digits);
    UnsignedIs(digits, x);
    if digits != "" { SignedIs(digits, x); }
  }

  lemma Written(v: int, n: nat)
    requires n > 0
    ensures Digits(v, n) == Digits(v / 16, n - 1) + [DigitChar(v % 16)]
    ensures Power(n) == 16 * Power(n - 1)
  {
  }

  lemma NoDigits()
    ensures Power(0) == 1 && Digits(0, 0) == ""
  {
  }

  lemma HighPart(v: int, p: int)
    requires 0 <= v < 16 * p
    ensures 0 <= v / 16 < p
  {
  }

  /** Writing n digits and reading them back. */
  lemma {:induction false} DigitsRoundTrip(v: int, n: nat)
    requires n > 0 && 0 <= v < Power(n)
    ensures HexValue(Digits(v, n)) == Some(v)
    decreases n
  {
    hide Power, Digits, HexValue, DigitOf;
    var high, low := v / 16, v % 16;
    Split(v);
    Written(v, n);
    NoDigits();
    HighPart(v, Power(n - 1));
    DigitRoundTrip(low);
    DigitsAreLowercase(high, n - 1);
    HexValueSnoc(Digits(high, n - 1), DigitChar(low));
    if n > 1 {
      DigitsRoundTrip(high, n - 1);
    }
  }

  /** v is what the word reads as, and the word is how v is written. */
  ghost predicate Reads(word: string, v: int) {
    HexValue(word) == Some(v) && 0 <= v < Power(|word|) && Digits(v, |word|) == word
  }

  lemma ReadsOneMore(shorter: string, high: int, last: char, d: int)
    requires shorter != "" && Reads(shorter, high)
    requires 0 <= d < 16 && DigitOf(last) == Some(d) && DigitChar(d) == last
    ensures Reads(shorter + [last], 16 * high + d)
  {
    hide Power, Digits, HexValue, DigitOf, DigitChar;
    HexValueSnoc(shorter, last);
    WrittenJoined(high, d, |shorter| + 1);
    var word := shorter + [last];
    assert |word| == |shorter| + 1;
  }

  lemma ReadsOne(last: char, d: int)
    requires 0 <= d < 16 && DigitOf(last) == Some(d) && DigitChar(d) == last
    ensures Reads([last], d)
  {
    HexValueSnoc("", last);
    WrittenJoined(0, d, 1);
    NoDigits();
    assert "" + [last] == [last];
  }

  lemma LowercaseParts(word: string) returns (shorter: string, last: char, d: int)
    requires word != "" && Lowercase(word)
    ensures word == shorter + [last] && |shorter| < |word| && Lowercase(shorter)
    ensures 0 <= d < 16 && DigitOf(last) == Some(d) && DigitChar(d) == last
  {
    shorter, last := word[..|word| - 1], word[|word| - 1];
    d := LowercaseDigit(last);
  }

  /** Reading a lowercase word gives a value that fits, and writing that value gives the word back. */
  lemma {:induction false} ValueRoundTrip(word: string) returns (v: int)
    requires word != "" && Lowercase(word)
    ensures Reads(word, v)
    decreases |word|
  {
    hide Reads, Lowercase, DigitOf, DigitChar;
    var shorter, last, d := LowercaseParts(word);
    if shorter == "" {
      v := d;
      ReadsOne(last, d);
      assert word == [last];
    } else {
      var high := ValueRoundTrip(shorter);
      v := 16 * high + d;
      ReadsOneMore(shorter, high, last, d);
    }
  }

  lemma WrittenJoined(v: int, d: int, n: nat)
    requires n > 0 && 0 <= d < 16
    ensures Digits(16 * v + d, n) == Digits(v, n - 1) + [DigitChar(d)]
    ensures Power(n) == 16 * Power(n - 1)
  {
    Joins(v, d);
    Written(16 * v + d, n);
    hide Digits, Power;
  }

  lemma LowercaseDigit(c: char) returns (d: int)
    requires '0' <= c <= '9' || 'a' <= c <= 'f'
    ensures 0 <= d < 16 && DigitOf(c) == Some(d) && DigitChar(d) == c
  {
    d := DigitOf(c).value;
  }

  lemma LowercaseIsUnprefixed(word: string)
    requires Lowercase(word)
    ensures Unprefixed(word) == word
  {
  }

  lemma MidpointIsHalf(n: nat)
    requires n > 0
    ensures Power(n) == 2 * Midpoint(n) && Midpoint(n) >= 1
  {
    PowerIsPositive(n - 1);
    Written(0, n);
  }

  /** Encoding then decoding, for every signed value the width holds. */
  lemma SignedRoundTrip(x: int, n: nat)
    requires n > 0 && -Midpoint(n) <= x < Midpoint(n)
    ensures |Word(x, n)| == n && Lowercase(Word(x, n))
    ensures DecodeSigned(Word(x, n)) == Some(x)
  {
    MidpointIsHalf(n);
    var v := if x < 0 then x + Power(n) else x;
    hide Power, Midpoint;
    DigitsAreLowercase(v, n);
    DigitsRoundTrip(v, n);
    LowercaseIsUnprefixed(Word(x, n));
  }

  lemma UnsignedRoundTrip(x: int, n: nat)
    requires n > 0 && 0 <= x < Power(n)
    ensures |Word(x, n)| == n && Lowercase(Word(x, n))
    ensures DecodeUnsigned(Word(x, n)) == Some(x)
  {
    hide Power, Midpoint;
    DigitsAreLowercase(x, n);
    DigitsRoundTrip(x, n);
    LowercaseIsUnprefixed(Word(x, n));
  }

  /** Decoding then encoding: with the round trip above, a bijection of lowercase words and signed values. */
  lemma SignedWordRoundTrip(word: string) returns (x: int)
    requires word != "" && Lowercase(word)
    ensures DecodeSigned(word) == Some(x)
    ensures -Midpoint(|word|) <= x < Midpoint(|word|)
    ensures Word(x, |word|) == word
  {
    hide Power, Midpoint, Digits, HexValue, Lowercase, Unprefixed;
    var n := |word|;
    MidpointIsHalf(n);
    LowercaseIsUnprefixed(word);
    var v := ValueRoundTrip(word);
    x := if v >= Midpoint(n) then v - Power(n) else v;
  }

  // ---------------------------------------------------------------- the Swap event

  datatype SwapFields = SwapFields(amount0: int, amount1: int, sqrtPriceX96: int, liquidity: int, tick: int)

  /** Too short to decode, not hexadecimal (the decoder throws), or the five values. */
  datatype Decoded = Short | Malformed | Fields(fields: SwapFields)

  function DecodeSwap(data: string): Decoded {
    var body := Unprefixed(data);
    if |body| < 320 then Short
    else
      var a0, a1 := DecodeSigned(body[0..64]), DecodeSigned(body[64..128]);
      var price, liquidity := DecodeUnsigned(body[128..192]), DecodeUnsigned(body[192..256]);
      var tick := DecodeSigned(body[256..320]);
      if a0.None? || a1.None? || price.None? || liquidity.None? || tick.None? then Malformed
      else Fields(SwapFields(a0.value, a1.value, price.value, liquidity.value, tick.value))
  }

  function EncodeSwap(s: SwapFields): string {
    Word(s.amount0, 64) + Word(s.amount1, 64) + Word(s.sqrtPriceX96, 64) + Word(s.liquidity, 64) + Word(s.tick, 64)
  }

  predicate Fits(s: SwapFields) {
    var half := Midpoint(64);
    && -half <= s.amount0 < half && -half <= s.amount1 < half && -half <= s.tick < half
    && 0 <= s.sqrtPriceX96 < Power(64) && 0 <= s.liquidity < Power(64)
  }

  lemma FiveWords(a: string, b: string, c: string, d: string, e: string, rest: string)
    requires |a| == 64 && |b| == 64 && |c| == 64 && |d| == 64 && |e| == 64
    ensures var all := a + b + c + d + e + rest;
            && all[0..64] == a && all[64..128] == b && all[128..192] == c && all[192..256] == d && all[256..320] == e
  {
  }

  /** The decoder inverts the ABI encoding, with or without the 0x prefix, whatever follows the five words. */
  lemma SwapRoundTrip(s: SwapFields, rest: string)
    requires Fits(s)
    ensures DecodeSwap(EncodeSwap(s) + rest) == Fields(s)
    ensures DecodeSwap("0x" + EncodeSwap(s) + rest) == Fields(s)
  {
    hide Power, Midpoint, DecodeSigned, DecodeUnsigned, Word;
    SignedRoundTrip(s.amount0, 64);
    SignedRoundTrip(s.amount1, 64);
    UnsignedRoundTrip(s.sqrtPriceX96, 64);
    UnsignedRoundTrip(s.liquidity, 64);
    SignedRoundTrip(s.tick, 64);
    var body := EncodeSwap(s) + rest;
    FiveWords(Word(s.amount0, 64), Word(s.amount1, 64), Word(s.sqrtPriceX96, 64), Word(s.liquidity, 64), Word(s.tick, 64), rest);
    assert body[1] == Word(s.amount0, 64)[1];
    assert !("0x" <= body);
    assert ("0x" + EncodeSwap(s) + rest)[2..] == body;
  }

  /** On any five words: too short a text is not decoded, a word that is not a number spoils it, and each field is its word's. */
  lemma SwapIs(a: string, b: string, c: string, d: string, e: string, rest: string, s: SwapFields)
    requires |a| == 64 && |b| == 64 && |c| == 64 && |d| == 64 && |e| == 64 && !("0x" <= a)
    ensures var data := a + b + c + d + e + rest;
            && DecodeSwap("0x" + data) == DecodeSwap(data)
            && DecodeSwap(data) != Short
            && (DecodeSwap(data) == Fields(s) <==>
                && DecodeSigned(a) == Some(s.amount0) && DecodeSigned(b) == Some(s.amount1)
                && DecodeUnsigned(c) == Some(s.sqrtPriceX96) && DecodeUnsigned(d) == Some(s.liquidity)
                && DecodeSigned(e) == Some(s.tick))
  {
    hide DecodeSigned, DecodeUnsigned, Unprefixed;
    var data := a + b + c + d + e + rest;
    FiveWords(a, b, c, d, e, rest);
    assert a == data[0..64] && |data| >= 320;
    assert !("0x" <= data) by { assert data[..64] == a; }
    UnprefixedIs(data);
  }

  lemma ShortIff(body: string)
    requires !("0x" <= body)
    ensures DecodeSwap(body) == Short <==> |body| < 5 * 64
    ensures DecodeSwap("0x" + body) == Short <==> |body| < 5 * 64
  {
    hide DecodeSigned, DecodeUnsigned, Unprefixed;
    UnprefixedIs(body);
  }
}
