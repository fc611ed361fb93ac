/** Positional numerals in any base, most significant digit first. */
module Numerals {
  import opened Bits

  function Value(base: nat, digits: seq<nat>): nat {
    if digits == [] then 0 else Value(base, digits[..|digits| - 1]) * base + digits[|digits| - 1]
  }

  function Numeral(base: nat, n: nat): seq<nat>
    requires base >= 2
  {
    if n == 0 then [] else Numeral(base, n / base) + [n % base]
  }

  predicate Below(base: nat, digits: seq<nat>) { forall i :: 0 <= i < |digits| ==> digits[i] < base }

  function LeadingZeros(digits: seq<nat>): (k: nat)
    ensures k <= |digits| && (k < |digits| ==> digits[k] != 0)
    ensures forall i :: 0 <= i < k ==> digits[i] == 0
  {
    if digits != [] && digits[0] == 0 then 1 + LeadingZeros(digits[1..]) else 0
  }

  function Zeros(k: nat): seq<nat> { seq(k, _ => 0) }

  /** Rewrites a numeral in another base, and keeps the number of leading zeros. */
  function Transcode(from: nat, to: nat, digits: seq<nat>): seq<nat>
    requires to >= 2
  {
    Zeros(LeadingZeros(digits)) + Numeral(to, Value(from, digits))
  }

  lemma DivMod(base: nat, q: nat, r: nat)
    requires r < base
    ensures (q * base + r) / base == q && (q * base + r) % base == r
  {
    ModUnique(q * base + r, base, q);
  }

  lemma Append(base: nat, digits: seq<nat>, d: nat)
    ensures Value(base, digits + [d]) == Value(base, digits) * base + d
  {
    assert (digits + [d])[..|digits|] == digits;
  }

  lemma Quotient(base: nat, n: nat)
    requires base >= 2 && n > 0
    ensures 0 <= n / base < n && n / base * base + n % base == n
  {
  }

  lemma {:induction false} ValueOfNumeral(base: nat, n: nat)
    requires base >= 2
    ensures Value(base, Numeral(base, n)) == n && Below(base, Numeral(base, n))
    ensures n > 0 ==> Numeral(base, n) != [] && Numeral(base, n)[0] != 0
  {
    if n > 0 {
      Quotient(base, n);
      var q, r := n / base, n % base;
      ValueOfNumeral(base, q);
      Append(base, Numeral(base, q), r);
    }
  }

  lemma {:induction false} NumeralOfValue(base: nat, digits: seq<nat>)
    requires base >= 2 && Below(base, digits) && (digits != [] ==> digits[0] != 0)
    ensures Numeral(base, Value(base, digits)) == digits
    ensures digits != [] ==> Value(base, digits) > 0
  {
    if digits != [] {
      var k := |digits| - 1;
      NumeralOfValue(base, digits[..k]);
      DivMod(base, Value(base, digits[..k]), digits[k]);
      assert digits[..k] + [digits[k]] == digits;
      if k > 0 { Grows(base, Value(base, digits[..k])); }
    }
  }

  lemma Grows(base: nat, n: nat)
    requires base >= 2 && n > 0
    ensures n * base > n
  {
    assert n * base == n + n * (base - 1);
    assert n * (base - 1) >= n;
  }

  lemma {:induction false} ValueOfZeros(base: nat, k: nat, digits: seq<nat>)
    ensures Value(base, Zeros(k) + digits) == Value(base, digits)
  {
    var padded := Zeros(k) + digits;
    if digits != [] {
      var higher := digits[..|digits| - 1];
      ValueOfZeros(base, k, higher);
      assert padded[..|padded| - 1] == Zeros(k) + higher;
    } else if k > 0 {
      ValueOfZeros(base, k - 1, []);
      assert padded[..k - 1] == Zeros(k - 1) + [];
    }
  }

  lemma {:induction false} LeadingZerosOf(k: nat, digits: seq<nat>)
    requires digits != [] ==> digits[0] != 0
    ensures LeadingZeros(Zeros(k) + digits) == k
  {
    if k > 0 {
      LeadingZerosOf(k - 1, digits);
      assert (Zeros(k) + digits)[1..] == Zeros(k - 1) + digits;
    }
  }

  /** Rewriting back restores the numeral, leading zeros included. */
  lemma TranscodeInverse(from: nat, to: nat, digits: seq<nat>)
    requires from >= 2 && to >= 2 && Below(from, digits)
    ensures Below(to, Transcode(from, to, digits))
    ensures Transcode(to, from, Transcode(from, to, digits)) == digits
  {
    var k := LeadingZeros(digits);
    var n := Value(from, digits);
    ValueOfNumeral(to, n);
    LeadingZerosOf(k, Numeral(to, n));
    ValueOfZeros(to, k, Numeral(to, n));
    assert digits == Zeros(k) + digits[k..];
    ValueOfZeros(from, k, digits[k..]);
    NumeralOfValue(from, digits[k..]);
  }

  // ---------------------------------------------------------------- sizes of numerals

  function Pow(base: nat, k: nat): nat { if k == 0 then 1 else Pow(base, k - 1) * base }

  lemma {:induction false} PowSum(base: nat, j: nat, k: nat)
    ensures Pow(base, j + k) == Pow(base, j) * Pow(base, k)
  {
    if k > 0 {
      PowSum(base, j, k - 1);
      ProductAssoc(Pow(base, j), Pow(base, k - 1), base);
    }
  }

  lemma ProductAssoc(a: nat, b: nat, c: nat)
    ensures a * b * c == a * (b * c)
  {
  }

  lemma {:induction false} ValueConcat(base: nat, high: seq<nat>, low: seq<nat>)
    ensures Value(base, high + low) == Value(base, high) * Pow(base, |low|) + Value(base, low)
  {
    if low == [] {
      assert high + low == high;
    } else {
      hide Value;
      var k := |low| - 1;
      ValueConcat(base, high, low[..k]);
      assert high + low == high + low[..k] + [low[k]] && low == low[..k] + [low[k]];
      Append(base, high + low[..k], low[k]);
      Append(base, low[..k], low[k]);
      Regroup(Value(base, high), Pow(base, k), base, Value(base, low[..k]));
    }
  }

  lemma Regroup(v: nat, p: nat, base: nat, w: nat)
    ensures (v * p + w) * base == v * (p * base) + w * base
  {
  }

  lemma {:induction false} ValueBound(base: nat, digits: seq<nat>)
    requires Below(base, digits)
    ensures Value(base, digits) < Pow(base, |digits|)
  {
    if digits != [] {
      var k := |digits| - 1;
      ValueBound(base, digits[..k]);
      BoundStep(base, Value(base, digits[..k]), Pow(base, k), digits[k]);
    }
  }

  lemma BoundStep(base: nat, v: nat, p: nat, d: nat)
    requires v < p && d < base
    ensures v * base + d < p * base
  {
    ProductMonotone(v + 1, p, base);
    Regroup(v, 1, base, 1);
  }

  lemma ProductMonotone(a: nat, b: nat, c: nat)
    requires a <= b
    ensures a * c <= b * c
  {
  }

  predicate Within(base: nat, n: nat, top: nat, k: nat) { top * Pow(base, k) <= n < (top + 1) * Pow(base, k) }

  /** The leading digits of every number between top * base^k and (top + 1) * base^k are those of top. */
  lemma {:induction false} LeadingDigits(base: nat, n: nat, top: nat, k: nat)
    requires base >= 2 && top > 0 && Within(base, n, top, k)
    ensures |Numeral(base, n)| == |Numeral(base, top)| + k && Numeral(base, top) <= Numeral(base, n)
  {
    hide Within, Numeral;
    if k > 0 {
      WithinQuotient(base, n, top, k);
      LeadingDigits(base, n / base, top, k - 1);
    } else {
      WithinOne(base, n, top);
    }
  }

  lemma WithinOne(base: nat, n: nat, top: nat)
    requires Within(base, n, top, 0)
    ensures n == top
  {
    var one := Pow(base, 0);
    assert one == 1 && top * one <= n < (top + 1) * one;
  }

  lemma WithinQuotient(base: nat, n: nat, top: nat, k: nat)
    requires base >= 2 && top > 0 && k > 0 && Within(base, n, top, k)
    ensures Within(base, n / base, top, k - 1) && Numeral(base, n) == Numeral(base, n / base) + [n % base]
  {
    var p, q := Pow(base, k - 1), Pow(base, k);
    assert q == p * base;
    PowPositive(base, k);
    hide Pow;
    ProductMonotone(1, top, q);
    ProductAssoc(top, p, base);
    ProductAssoc(top + 1, p, base);
    BetweenMultiples(base, n, top * p, (top + 1) * p);
  }

  lemma {:induction false} PowPositive(base: nat, k: nat)
    requires base > 0
    ensures Pow(base, k) > 0
  {
    if k > 0 { PowPositive(base, k - 1); }
  }

  lemma BetweenMultiples(base: nat, n: nat, low: nat, high: nat)
    requires base > 0 && low * base <= n < high * base
    ensures low <= n / base < high
  {
    var q := n / base;
    if q < low { ProductMonotone(q + 1, low, base); }
    if q >= high { ProductMonotone(high, q, base); }
  }

  // ---------------------------------------------------------------- int.to_bytes

  /** int.bit_length */
  function BitLength(n: nat): nat { if n == 0 then 0 else 1 + BitLength(n / 2) }

  /** int.to_bytes(length, "big"), which raises OverflowError unless the length is enough. */
  function ToBytes(n: nat, length: nat): seq<nat>
    decreases length
  {
    if length == 0 then [] else ToBytes(n / 256, length - 1) + [n % 256]
  }

  lemma {:induction false} BitLengthUnder(n: nat, k: nat)
    requires 0 < n < Pow2(k)
    ensures 1 <= BitLength(n) <= k
  {
    if n > 1 { BitLengthUnder(n / 2, k - 1); }
  }

  lemma {:induction false} Pow2Positive(k: nat)
    ensures Pow2(k) > 0
  {
    if k > 0 { Pow2Positive(k - 1); }
  }

  lemma {:induction false} BitLengthShift(n: nat, k: nat)
    requires n >= Pow2(k) > 0
    ensures n / Pow2(k) > 0 && BitLength(n) == BitLength(n / Pow2(k)) + k
  {
    if k > 0 {
      Pow2Positive(k - 1);
      BitLengthShift(n / 2, k - 1);
      HalfThen(n, Pow2(k - 1));
    }
  }

  lemma HalfThen(n: nat, m: nat)
    requires m > 0
    ensures n / (2 * m) == n / 2 / m
  {
    var h := n / 2;
    var q, r := h / m, h % m;
    assert h == q * m + r;
    assert n == q * (2 * m) + (2 * r + n % 2);
    DivMod(2 * m, q, 2 * r + n % 2);
  }

  /** The byte count taken from bit_length is exactly the length of the shortest base-256 numeral. */
  lemma {:induction false} ShortestBytes(n: nat)
    ensures ToBytes(n, (BitLength(n) + 7) / 8) == Numeral(256, n)
  {
    if n > 0 {
      ShortestBytes(n / 256);
      assert Pow2(8) == 256;
      if n < 256 { BitLengthUnder(n, 8); } else { BitLengthShift(n, 8); }
    }
  }
}

/** Base58 as in src/aries/identity/did.py lines 14-50. */
module Base58 {
  import opened Wrappers
  import opened Bits
  import opened Numerals

  const ALPHABET := "123456789" + "ABCDEFGH" + "JKLMN" + "PQRSTUVWXYZ" + "abcdefghijk" + "mnopqrstuvwxyz"

  datatype Error = NotAscii(char) | NotBase58(char)

  // ---------------------------------------------------------------- letters

  function Find(s: string, ch: char): (i: int)
    ensures i == -1 || (0 <= i < |s| && s[i] == ch && ch !in s[..i])
    ensures i == -1 <==> ch !in s
  {
    if s == [] then -1 else if s[0] == ch then 0 else
      var i := Find(s[1..], ch);
      assert s == [s[0]] + s[1..];
      if i == -1 then -1
      else
        assert s[..i + 1] == [s[0]] + s[1..][..i];
        i + 1
  }

  predicate Range(s: string, first: char) { forall i :: 0 <= i < |s| ==> s[i] as int == first as int + i }

  function Code(d: nat): nat {
    if d < 9 then 49 + d else if d < 17 then 56 + d else if d < 22 then 57 + d
    else if d < 33 then 58 + d else if d < 44 then 64 + d else 65 + d
  }

  lemma RangesAt(d: nat, a: string, b: string, c: string, e: string, f: string, g: string)
    requires d < 58 && |a| == 9 && |b| == 8 && |c| == 5 && |e| == 11 && |f| == 11 && |g| == 14
    requires Range(a, '1') && Range(b, 'A') && Range(c, 'J') && Range(e, 'P') && Range(f, 'a') && Range(g, 'm')
    ensures (a + b + c + e + f + g)[d] as int == Code(d)
  {
  }

  /** The letters stand in increasing order. */
  lemma AlphabetAt(d: nat)
    requires d < 58
    ensures |ALPHABET| == 58 && ALPHABET[d] as int == Code(d)
  {
    RangesAt(d, "123456789", "ABCDEFGH", "JKLMN", "PQRSTUVWXYZ", "abcdefghijk", "mnopqrstuvwxyz");
  }

  lemma FindLetter(d: nat)
    requires d < 58
    ensures |ALPHABET| == 58 && Find(ALPHABET, ALPHABET[d]) == d
    ensures (ALPHABET[d] as int) < 128 && (ALPHABET[d] == '1' <==> d == 0)
  {
    hide ALPHABET;
    AlphabetAt(d);
    var i := Find(ALPHABET, ALPHABET[d]);
    assert ALPHABET[d] in ALPHABET;
    AlphabetAt(i);
  }

  function Letters(digits: seq<nat>): string
    requires Below(58, digits)
  {
    seq(|digits|, i requires 0 <= i < |digits| => ALPHABET[digits[i]])
  }

  predicate OverAlphabet(s: string) { forall ch :: ch in s ==> ch in ALPHABET }

  function Indices(s: string): (digits: seq<nat>)
    requires OverAlphabet(s)
    ensures |digits| == |s| && Below(58, digits)
    ensures forall i :: 0 <= i < |s| ==> ALPHABET[digits[i]] == s[i]
  {
    seq(|s|, i requires 0 <= i < |s| => Find(ALPHABET, s[i]))
  }

  lemma LettersOfIndices(s: string)
    requires OverAlphabet(s)
    ensures Letters(Indices(s)) == s
  {
  }

  lemma IndicesOfLetters(digits: seq<nat>)
    requires Below(58, digits)
    ensures OverAlphabet(Letters(digits)) && Indices(Letters(digits)) == digits
  {
    var s := Letters(digits);
    forall ch | ch in s ensures ch in ALPHABET {
      var i :| 0 <= i < |s| && s[i] == ch;
    }
    forall i | 0 <= i < |s| ensures Indices(s)[i] == digits[i] {
      FindLetter(digits[i]);
    }
  }

  // ---------------------------------------------------------------- encoding and decoding

  function Encoded(data: seq<Byte>): string {
    TranscodeInverse(256, 58, data);
    Letters(Transcode(256, 58, data))
  }

  function Decoded(s: string): seq<Byte>
    requires OverAlphabet(s)
  {
    TranscodeInverse(58, 256, Indices(s));
    Transcode(58, 256, Indices(s))
  }

  /** The result of decoding any string: the first letter outside the alphabet decides the error. */
  function Decoding(s: string): Result<seq<Byte>, Error>
  {
    if OverAlphabet(s) then Ok(Decoded(s)) else Err(ErrorOf(FirstForeign(s)))
  }

  function ErrorOf(ch: char): Error { if ch as int >= 128 then NotAscii(ch) else NotBase58(ch) }

  lemma RestForeign(s: string)
    requires !OverAlphabet(s) && s != [] && s[0] in ALPHABET
    ensures !OverAlphabet(s[1..])
  {
    hide ALPHABET;
    var ch :| ch in s && ch !in ALPHABET;
    assert s == [s[0]] + s[1..];
  }

  function FirstForeign(s: string): (ch: char)
    requires !OverAlphabet(s)
    ensures ch in s && ch !in ALPHABET
  {
    if s[0] !in ALPHABET then s[0] else
      RestForeign(s);
      FirstForeign(s[1..])
  }

  lemma {:induction false} FirstForeignAt(s: string, i: nat)
    requires i < |s| && s[i] !in ALPHABET && OverAlphabet(s[..i])
    ensures !OverAlphabet(s) && FirstForeign(s) == s[i]
  {
    assert s[i] in s;
    if i > 0 {
      assert s[0] in s[..i];
      assert s[1..][..i - 1] == s[..i][1..];
      FirstForeignAt(s[1..], i - 1);
    }
  }

  function Reversed<T>(s: seq<T>): seq<T> { seq(|s|, i requires 0 <= i < |s| => s[|s| - 1 - i]) }

  lemma ReversedTwice<T>(s: seq<T>)
    ensures Reversed(Reversed(s)) == s
  {
  }

  lemma ReversedPrepend<T>(x: T, s: seq<T>)
    ensures Reversed([x] + s) == Reversed(s) + [x]
  {
  }

  lemma LettersPrepend(d: nat, low: seq<nat>)
    requires d < 58 && Below(58, low)
    ensures |ALPHABET| == 58 && Below(58, [d] + low)
    ensures Letters([d] + low) == [ALPHABET[d]] + Letters(low)
  {
    hide ALPHABET;
    FindLetter(d);
  }

  lemma PrependDigit(d: nat, low: seq<nat>)
    requires d < 58 && Below(58, low)
    ensures |ALPHABET| == 58 && Below(58, [d] + low)
    ensures Reversed(Letters(low)) + [ALPHABET[d]] == Reversed(Letters([d] + low))
  {
    hide ALPHABET, Letters, Reversed;
    LettersPrepend(d, low);
    ReversedPrepend(ALPHABET[d], Letters(low));
  }

  /** _b58encode */
  method B58Encode(data: seq<Byte>) returns (s: string)
    ensures s == Encoded(data)
  {
    hide ALPHABET, Letters, Reversed, Value, Transcode, Numeral, Zeros, Encoded;
    FindLetter(0);
    var n := Value(256, data);
    ghost var digits := Numeral(58, n);
    var out: string := [];
    ghost var low: seq<nat> := [];
    NothingReversed();
    assert digits + low == digits;
    while n > 0
      invariant Below(58, low) && out == Reversed(Letters(low)) && digits == Numeral(58, n) + low
    {
      var rem := n % 58;
      PrependDigit(rem, low);
      NextDigit(n, low);
      out := out + [ALPHABET[rem]];
      low := [rem] + low;
      n := n / 58;
    }
    NoDigits(digits, low);
    var i := 0;
    while i < |data| && data[i] == 0
      invariant i <= LeadingZeros(data)
      invariant low == Zeros(i) + digits && Below(58, low) && out == Reversed(Letters(low))
    {
      PrependDigit(0, low);
      NextZero(i, digits);
      out := out + [ALPHABET[0]];
      low := [0] + low;
      i := i + 1;
    }
    ReversedTwice(Letters(low));
    s := Reversed(out);
    LowIsTranscoded(data, i, low);
  }

  lemma NextDigit(n: nat, low: seq<nat>)
    requires n > 0
    ensures Numeral(58, n) + low == Numeral(58, n / 58) + ([n % 58] + low)
  {
    var higher, d := Numeral(58, n / 58), n % 58;
    assert Numeral(58, n) == higher + [d];
    hide Numeral;
    assert higher + [d] + low == higher + ([d] + low);
  }

  lemma NextZero(i: nat, digits: seq<nat>)
    ensures Zeros(i + 1) + digits == [0] + (Zeros(i) + digits)
  {
    assert Zeros(i + 1) == [0] + Zeros(i);
  }

  lemma NoDigits(digits: seq<nat>, low: seq<nat>)
    ensures digits == Numeral(58, 0) + low ==> low == Zeros(0) + digits
  {
  }

  lemma NothingReversed()
    ensures Reversed(Letters([])) == ""
  {
  }

  lemma LowIsTranscoded(data: seq<Byte>, i: nat, low: seq<nat>)
    requires i == LeadingZeros(data) && low == Zeros(i) + Numeral(58, Value(256, data)) && Below(58, low)
    ensures Letters(low) == Encoded(data)
  {
    TranscodeInverse(256, 58, data);
  }

  lemma NextIndex(s: string, i: nat)
    requires i < |s| && OverAlphabet(s[..i])
    ensures |ALPHABET| == 58 && (Find(ALPHABET, s[i]) != -1 ==> (s[i] as int) < 128)
    ensures Find(ALPHABET, s[i]) != -1 ==> OverAlphabet(s[..i + 1])
    ensures Find(ALPHABET, s[i]) != -1 ==>
            Value(58, Indices(s[..i + 1])) == Value(58, Indices(s[..i])) * 58 + Find(ALPHABET, s[i])
  {
    hide ALPHABET;
    FindLetter(0);
    var idx := Find(ALPHABET, s[i]);
    if idx != -1 {
      FindLetter(idx);
      assert s[..i + 1] == s[..i] + [s[i]];
      assert Indices(s[..i + 1]) == Indices(s[..i]) + [idx];
      Append(58, Indices(s[..i]), idx);
    }
  }

  /** _b58decode */
  method B58Decode(s: string) returns (r: Result<seq<Byte>, Error>)
    ensures r == Decoding(s)
  {
    hide ALPHABET, Indices, Value, Transcode;
    NoIndices(s);
    if s == "" {
      DecodedParts(s, 0, 0);
      return Ok([]);
    }
    var n := 0;
    var i := 0;
    while i < |s|
      invariant 0 <= i <= |s| && OverAlphabet(s[..i])
      invariant n == Value(58, Indices(s[..i]))
    {
      NextIndex(s, i);
      var idx := if s[i] as int >= 128 then -1 else Find(ALPHABET, s[i]);
      if idx < 0 {
        FirstForeignAt(s, i);
        return Err(ErrorOf(s[i]));
      }
      n := n * 58 + idx;
      i := i + 1;
    }
    assert s[..i] == s;
    var leading := 0;
    IsOne(s);
    while leading < |s| && s[leading] == '1'
      invariant leading <= LeadingZeros(Indices(s))
    {
      leading := leading + 1;
    }
    ShortestBytes(n);
    DecodedParts(s, leading, n);
    var body: seq<Byte> := if n > 0 then ToBytes(n, (BitLength(n) + 7) / 8) else [];
    r := Ok(Zeros(leading) + body);
  }

  lemma NoIndices(s: string)
    ensures OverAlphabet(s[..0]) && Value(58, Indices(s[..0])) == 0
  {
  }

  lemma DecodedParts(s: string, leading: nat, n: nat)
    requires OverAlphabet(s) && leading == LeadingZeros(Indices(s)) && n == Value(58, Indices(s))
    ensures Decoded(s) == Zeros(leading) + Numeral(256, n) && Below(256, Numeral(256, n))
  {
    ValueOfNumeral(256, n);
  }

  lemma IsOne(s: string)
    requires OverAlphabet(s)
    ensures forall i :: 0 <= i < |s| ==> (s[i] == '1' <==> Indices(s)[i] == 0)
  {
    hide ALPHABET, Indices;
    forall i | 0 <= i < |s| ensures s[i] == '1' <==> Indices(s)[i] == 0 {
      FindLetter(Indices(s)[i]);
    }
  }

  /** Decoding inverts encoding, for every byte string. */
  lemma DecodeEncode(data: seq<Byte>)
    ensures Decoding(Encoded(data)) == Ok(data)
  {
    TranscodeInverse(256, 58, data);
    IndicesOfLetters(Transcode(256, 58, data));
  }

  /** The first letter outside the alphabet is the one reported, apart from the others if it is not ASCII. */
  lemma FirstForeignReported(s: string, i: nat)
    requires i < |s| && OverAlphabet(s[..i]) && s[i] !in ALPHABET
    ensures Decoding(s) == Err(if s[i] >= 128 as char then NotAscii(s[i]) else NotBase58(s[i]))
  {
    hide ALPHABET;
    FirstForeignAt(s, i);
  }

  /** Encoding inverts decoding, and decoding fails exactly outside the alphabet. */
  lemma EncodeDecode(s: string)
    ensures Decoding(s).Ok? <==> OverAlphabet(s)
    ensures Decoding(s).Ok? ==> Encoded(Decoding(s).value) == s
  {
    if OverAlphabet(s) {
      TranscodeInverse(58, 256, Indices(s));
      LettersOfIndices(s);
    }
  }
}
