/** Byte encodings the repository takes from Go's library: decimal integers, base64. */
module Codecs {
  import opened Options

  type Byte = b: int | 0 <= b < 256
  type Bytes = seq<Byte>

  const ZERO: Byte := 48
  const MINUS: Byte := 45
  const PLUS: Byte := 43
  const PAD: Byte := 61

  predicate IsDigit(b: Byte) {
    ZERO <= b <= ZERO + 9
  }

  predicate AllDigits(s: Bytes) {
    forall i :: 0 <= i < |s| ==> IsDigit(s[i])
  }

  /** `strconv.Itoa` of a natural number. */
  function Decimal(n: nat): (s: Bytes)
    ensures |s| > 0 && AllDigits(s)
  {
    if n < 10 then [ZERO + n] else Decimal(n / 10) + [ZERO + n % 10]
  }

  function DigitsValue(s: Bytes): nat
    requires AllDigits(s)
  {
    if s == [] then 0 else DigitsValue(s[..|s| - 1]) * 10 + (s[|s| - 1] - ZERO)
  }

  lemma {:induction false} DecimalValue(n: nat)
    ensures DigitsValue(Decimal(n)) == n
  {
    var s := Decimal(n);
    if n < 10 {
      assert s[..0] == [];
    } else {
      DecimalValue(n / 10);
      assert s[..|s| - 1] == Decimal(n / 10);
    }
  }

  const MIN64: int := -0x8000_0000_0000_0000
  const MAX64: int := 0x7FFF_FFFF_FFFF_FFFF

  /** `strconv.FormatInt(n, 10)`. */
  function FormatInt(n: int): Bytes {
    if n < 0 then [MINUS] + Decimal(-n) else Decimal(n)
  }

  /** `strconv.ParseInt(s, 10, 64)`: an optional sign, digits, and the range of int64. */
  function ParseInt(s: Bytes): Option<int> {
    var signed := s != [] && (s[0] == MINUS || s[0] == PLUS);
    var digits := if signed then s[1..] else s;
    if digits == [] || !AllDigits(digits) then None
    else
      var m: int := DigitsValue(digits);
      var n := if s[0] == MINUS then -m else m;
      if MIN64 <= n <= MAX64 then Some(n) else None
  }

  lemma ParseFormat(n: int)
    ensures ParseInt(FormatInt(n)) == if MIN64 <= n <= MAX64 then Some(n) else None
  {
    var m := if n < 0 then -n else n;
    DecimalValue(m);
    var d := Decimal(m);
    assert IsDigit(d[0]);
    if n < 0 { assert ([MINUS] + d)[1..] == d; }
  }

  /** What `ParseInt` reads: digits, with at most a sign before them, in the range of int64. */
  lemma ParsesDigits(d: Bytes)
    requires d != [] && AllDigits(d)
    ensures var n: int := DigitsValue(d);
            && ParseInt(d) == (if n <= MAX64 then Some(n) else None)
            && ParseInt([PLUS] + d) == (if n <= MAX64 then Some(n) else None)
            && ParseInt([MINUS] + d) == (if MIN64 <= -n then Some(-n) else None)
  {
    assert ([PLUS] + d)[1..] == d && ([MINUS] + d)[1..] == d;
    assert IsDigit(d[0]);
  }

  lemma ParsesOnlyDigits(s: Bytes)
    requires ParseInt(s).Some?
    ensures s != [] && AllDigits(s[1..])
    ensures IsDigit(s[0]) || ((s[0] == PLUS || s[0] == MINUS) && |s| > 1)
  {
  }

  /** The alphabets of base64: standard and URL-safe (RFC 4648, sections 4 and 5). */
  datatype Variant = Standard | RawUrl

  type Sextet = v: int | 0 <= v < 64

  function Symbol(e: Variant, v: Sextet): Byte {
    if v < 26 then 65 + v
    else if v < 52 then 97 + (v - 26)
    else if v < 62 then 48 + (v - 52)
    else if v == 62 then (if e.RawUrl? then 45 else 43)
    else if e.RawUrl? then 95 else 47
  }

  function Meaning(e: Variant, b: Byte): Option<Sextet> {
    if 65 <= b <= 90 then Some(b - 65)
    else if 97 <= b <= 122 then Some(b - 97 + 26)
    else if 48 <= b <= 57 then Some(b - 48 + 52)
    else if b == (if e.RawUrl? then 45 else 43) then Some(62)
    else if b == (if e.RawUrl? then 95 else 47) then Some(63)
    else None
  }

  lemma SymbolMeaning(e: Variant, v: Sextet)
    ensures Meaning(e, Symbol(e, v)) == Some(v)
    ensures Symbol(e, v) != PAD && Symbol(e, v) != 10 && Symbol(e, v) != 13
  {
  }

  /** The four sextets of three bytes. */
  function S0(a: Byte): Sextet { a / 4 }
  function S1(a: Byte, b: Byte): Sextet { a % 4 * 16 + b / 16 }
  function S2(b: Byte, c: Byte): Sextet { b % 16 * 4 + c / 64 }
  function S3(c: Byte): Sextet { c % 64 }

  /** And back. */
  function B0(v: Sextet, w: Sextet): Byte { v * 4 + w / 16 }
  function B1(w: Sextet, x: Sextet): Byte { w % 16 * 16 + x / 4 }
  function B2(x: Sextet, y: Sextet): Byte { x % 4 * 64 + y }

  lemma SextetsBack(a: Byte, b: Byte, c: Byte)
    ensures B0(S0(a), S1(a, b)) == a && B1(S1(a, b), S2(b, c)) == b && B2(S2(b, c), S3(c)) == c
  {
  }

  /** `EncodeToString`. */
  function Encode(e: Variant, x: Bytes): Bytes {
    if x == [] then []
    else if |x| == 1 then
      [Symbol(e, S0(x[0])), Symbol(e, S1(x[0], 0))] + if e.Standard? then [PAD, PAD] else []
    else if |x| == 2 then
      [Symbol(e, S0(x[0])), Symbol(e, S1(x[0], x[1])), Symbol(e, S2(x[1], 0))] + if e.Standard? then [PAD] else []
    else
      [Symbol(e, S0(x[0])), Symbol(e, S1(x[0], x[1])), Symbol(e, S2(x[1], x[2])), Symbol(e, S3(x[2]))]
      + Encode(e, x[3..])
  }

  /** The decoder skips line breaks wherever they stand. */
  function SkipBreaks(s: Bytes): Bytes {
    if s == [] then []
    else (if s[0] == 10 || s[0] == 13 then [] else [s[0]]) + SkipBreaks(s[1..])
  }

  /** Quantum by quantum; padding may end only the last one, and only in the padded variant. */
  function DecodeQuanta(e: Variant, t: Bytes): Option<Bytes> {
    if t == [] then Some([])
    else if |t| == 1 then None
    else
      match (Meaning(e, t[0]), Meaning(e, t[1]))
      case (Some(v), Some(w)) =>
        if |t| < 4 && e.Standard? then None
        else if |t| == 2 then Some([B0(v, w)])
        else if e.Standard? && t[2] == PAD then
          (if t[3] == PAD && |t| == 4 then Some([B0(v, w)]) else None)
        else
          (match Meaning(e, t[2])
           case None => None
           case Some(x) =>
             if |t| == 3 then Some([B0(v, w), B1(w, x)])
             else if e.Standard? && t[3] == PAD then (if |t| == 4 then Some([B0(v, w), B1(w, x)]) else None)
             else
               match Meaning(e, t[3])
               case None => None
               case Some(y) =>
                 match DecodeQuanta(e, t[4..])
                 case None => None
                 case Some(rest) => Some([B0(v, w), B1(w, x), B2(x, y)] + rest))
      case _ => None
  }

  /** `DecodeString`. */
  function Decode(e: Variant, s: Bytes): Option<Bytes> {
    DecodeQuanta(e, SkipBreaks(s))
  }

  lemma {:induction false} QuantaRoundTrip(e: Variant, x: Bytes)
    ensures DecodeQuanta(e, Encode(e, x)) == Some(x)
  {
    if |x| == 1 {
      OneByte(e, x[0]);
      assert x == [x[0]];
    } else if |x| == 2 {
      TwoBytes(e, x[0], x[1]);
      assert x == [x[0], x[1]];
    } else if |x| >= 3 {
      QuantaRoundTrip(e, x[3..]);
      ThreeBytes(e, x[0], x[1], x[2], Encode(e, x[3..]), x[3..]);
      assert [x[0], x[1], x[2]] + x[3..] == x;
    }
  }

  lemma DecodeOne(e: Variant, p: Byte, q: Byte, v: Sextet, w: Sextet)
    requires Meaning(e, p) == Some(v) && Meaning(e, q) == Some(w)
    ensures DecodeQuanta(e, [p, q] + if e.Standard? then [PAD, PAD] else []) == Some([B0(v, w)])
  {
    hide Meaning, B0, B1, B2;
    assert e.Standard? ==> [p, q] + [PAD, PAD] == [p, q, PAD, PAD];
    assert e.RawUrl? ==> [p, q] + [] == [p, q];
  }

  lemma OneByte(e: Variant, a: Byte)
    ensures DecodeQuanta(e, Encode(e, [a])) == Some([a])
  {
    SymbolMeaning(e, S0(a));
    SymbolMeaning(e, S1(a, 0));
    SextetsBack(a, 0, 0);
    hide S0, S1, B0, B1, Symbol, Meaning, DecodeQuanta;
    DecodeOne(e, Symbol(e, S0(a)), Symbol(e, S1(a, 0)), S0(a), S1(a, 0));
  }

  lemma TwoBytes(e: Variant, a: Byte, b: Byte)
    ensures DecodeQuanta(e, Encode(e, [a, b])) == Some([a, b])
  {
    var v, w, x := S0(a), S1(a, b), S2(b, 0);
    SymbolMeaning(e, v);
    SymbolMeaning(e, w);
    SymbolMeaning(e, x);
    SextetsBack(a, b, 0);
    hide S0, S1, S2, B0, B1, Symbol, Meaning;
    var t := Encode(e, [a, b]);
    assert t == [Symbol(e, v), Symbol(e, w), Symbol(e, x)] + if e.Standard? then [PAD] else [];
  }

  lemma ThreeBytes(e: Variant, a: Byte, b: Byte, c: Byte, tail: Bytes, rest: Bytes)
    requires DecodeQuanta(e, tail) == Some(rest)
    ensures DecodeQuanta(e, [Symbol(e, S0(a)), Symbol(e, S1(a, b)), Symbol(e, S2(b, c)), Symbol(e, S3(c))] + tail)
         == Some([a, b, c] + rest)
  {
    SymbolMeaning(e, S0(a));
    SymbolMeaning(e, S1(a, b));
    SymbolMeaning(e, S2(b, c));
    SymbolMeaning(e, S3(c));
    SextetsBack(a, b, c);
    var t := [Symbol(e, S0(a)), Symbol(e, S1(a, b)), Symbol(e, S2(b, c)), Symbol(e, S3(c))] + tail;
    assert t[4..] == tail;
  }

  predicate NoBreaks(s: Bytes) {
    forall i :: 0 <= i < |s| ==> s[i] != 10 && s[i] != 13
  }

  lemma {:induction false} EncodeNoBreaks(e: Variant, x: Bytes)
    ensures NoBreaks(Encode(e, x))
  {
    if |x| >= 3 { EncodeNoBreaks(e, x[3..]); }
  }

  lemma {:induction false} SkipNothing(s: Bytes)
    requires NoBreaks(s)
    ensures SkipBreaks(s) == s
  {
    if s != [] {
      SkipNothing(s[1..]);
      assert [s[0]] + s[1..] == s;
    }
  }

  /** Decoding undoes encoding, in both variants, for every byte string. */
  lemma RoundTrip(e: Variant, x: Bytes)
    ensures Decode(e, Encode(e, x)) == Some(x)
  {
    EncodeNoBreaks(e, x);
    SkipNothing(Encode(e, x));
    QuantaRoundTrip(e, x);
  }

  /** The 64 symbols of RFC 4648: letters, digits, and the two of section 4 or of section 5. */
  predicate InAlphabet(e: Variant, b: Byte) {
    || 'A' as int <= b <= 'Z' as int || 'a' as int <= b <= 'z' as int || '0' as int <= b <= '9' as int
    || match e
       case Standard => b == '+' as int || b == '/' as int
       case RawUrl => b == '-' as int || b == '_' as int
  }

  lemma MeaningExactly(e: Variant, b: Byte)
    ensures Meaning(e, b).Some? <==> InAlphabet(e, b)
  {
  }

  /** How many padding bytes stand at the end, two at most, and none in the unpadded variant. */
  function Padding(e: Variant, t: Bytes): (p: nat)
    ensures p <= |t|
  {
    if e.RawUrl? || |t| < 2 || t[|t| - 1] != PAD then 0 else if t[|t| - 2] != PAD then 1 else 2
  }

  /** What a decoder accepts: whole quanta with their padding, or without padding any length that a
      byte string can have, and nothing outside the alphabet. */
  ghost predicate WellFormed(e: Variant, t: Bytes) {
    && (if e.Standard? then |t| % 4 == 0 else |t| % 4 != 1)
    && forall i :: 0 <= i < |t| - Padding(e, t) ==> InAlphabet(e, t[i])
  }

  lemma {:induction false} QuantaExactly(e: Variant, t: Bytes)
    ensures DecodeQuanta(e, t).Some? <==> WellFormed(e, t)
    decreases |t|
  {
    hide InAlphabet, Meaning, B0, B1, B2;
    forall b ensures Meaning(e, b).Some? <==> InAlphabet(e, b) { MeaningExactly(e, b); }
    PadOutside(e);
    if |t| > 4 {
      QuantaExactly(e, t[4..]);
      QuantumOff(e, t);
    }
  }

  lemma PadOutside(e: Variant)
    ensures !InAlphabet(e, PAD)
  {
  }

  lemma QuantumOff(e: Variant, t: Bytes)
    requires |t| > 4
    ensures WellFormed(e, t) <==>
              WellFormed(e, t[4..]) && forall i :: 0 <= i < 4 ==> InAlphabet(e, t[i])
  {
    hide InAlphabet;
    PadOutside(e);
  }

  /** `DecodeString` succeeds exactly on what, its line breaks aside, is well-formed base64. */
  lemma DecodesExactly(e: Variant, s: Bytes)
    ensures Decode(e, s).Some? <==> WellFormed(e, SkipBreaks(s))
  {
    QuantaExactly(e, SkipBreaks(s));
  }

  lemma {:induction false} SkipJoin(a: Bytes, b: Bytes)
    ensures SkipBreaks(a + b) == SkipBreaks(a) + SkipBreaks(b)
  {
    if a == [] {
      assert a + b == b;
    } else {
      var head := if a[0] == 10 || a[0] == 13 then [] else [a[0]];
      SkipJoin(a[1..], b);
      assert (a + b)[1..] == a[1..] + b && (a + b)[0] == a[0];
      calc {
        SkipBreaks(a + b);
        head + SkipBreaks(a[1..] + b);
        head + (SkipBreaks(a[1..]) + SkipBreaks(b));
        (head + SkipBreaks(a[1..])) + SkipBreaks(b);
      }
    }
  }

  /** A line break anywhere makes no difference. */
  lemma BreaksIgnored(e: Variant, a: Bytes, b: Bytes, n: Byte)
    requires n == 10 || n == 13
    ensures Decode(e, a + [n] + b) == Decode(e, a + b)
  {
    SkipJoin(a + [n], b);
    SkipJoin(a, [n]);
    SkipJoin(a, b);
    assert [n][1..] == [] && SkipBreaks([n]) == [];
    assert SkipBreaks(a) + [] == SkipBreaks(a);
  }

  lemma SymbolBack(e: Variant, b: Byte)
    requires Meaning(e, b).Some?
    ensures Symbol(e, Meaning(e, b).value) == b && b != PAD
  {
  }

  lemma BytesBack(v: Sextet, w: Sextet, x: Sextet, y: Sextet)
    ensures S0(B0(v, w)) == v && S1(B0(v, w), B1(w, x)) == w && S2(B1(w, x), B2(x, y)) == x && S3(B2(x, y)) == y
  {
  }

  /** `back` is `t` but for the last symbol of an incomplete quantum. */
  ghost predicate SameText(e: Variant, back: Bytes, t: Bytes) {
    var body := |t| - Padding(e, t);
    |back| == |t| && forall i :: 0 <= i < |t| && (i != body - 1 || body % 4 == 0) ==> back[i] == t[i]
  }

  /** The bytes decoded stand for the text: encoded again they give it back, up to the bits that the
      last symbol of an incomplete quantum has to spare. */
  lemma {:induction false} DecodedIs(e: Variant, t: Bytes)
    requires DecodeQuanta(e, t).Some?
    ensures SameText(e, Encode(e, DecodeQuanta(e, t).value), t)
    ensures |DecodeQuanta(e, t).value| == (|t| - Padding(e, t)) * 3 / 4
    decreases |t|
  {
    hide SameText;
    QuantaExactly(e, t);
    if |t| > 4 {
      hide Symbol, Meaning, B0, B1, B2, S0, S1, S2, S3;
      DecodedIs(e, t[4..]);
      LongerText(e, t);
    } else {
      ShortText(e, t);
    }
  }

  lemma LongerText(e: Variant, t: Bytes)
    requires |t| > 4 && DecodeQuanta(e, t).Some? && DecodeQuanta(e, t[4..]).Some? && WellFormed(e, t)
    requires SameText(e, Encode(e, DecodeQuanta(e, t[4..]).value), t[4..])
    ensures SameText(e, Encode(e, DecodeQuanta(e, t).value), t)
    ensures |DecodeQuanta(e, t).value| == 3 + |DecodeQuanta(e, t[4..]).value| && Padding(e, t) == Padding(e, t[4..])
  {
    hide DecodeQuanta, InAlphabet, Encode;
    QuantumOff(e, t);
    WholeQuantum(e, t);
  }

  lemma WholeQuantum(e: Variant, t: Bytes)
    requires |t| > 4 && DecodeQuanta(e, t).Some? && DecodeQuanta(e, t[4..]).Some?
    requires forall i :: 0 <= i < 4 ==> InAlphabet(e, t[i])
    ensures |DecodeQuanta(e, t).value| == 3 + |DecodeQuanta(e, t[4..]).value|
    ensures Encode(e, DecodeQuanta(e, t).value) == t[..4] + Encode(e, DecodeQuanta(e, t[4..]).value)
  {
    hide Symbol, Meaning, B0, B1, B2, S0, S1, S2, S3, InAlphabet;
    PadOutside(e);
    KnownSymbol(e, t[0]);
    KnownSymbol(e, t[1]);
    KnownSymbol(e, t[2]);
    KnownSymbol(e, t[3]);
    var v, w := Meaning(e, t[0]).value, Meaning(e, t[1]).value;
    var x, y := Meaning(e, t[2]).value, Meaning(e, t[3]).value;
    var rest := DecodeQuanta(e, t[4..]).value;
    assert DecodeQuanta(e, t) == Some([B0(v, w), B1(w, x), B2(x, y)] + rest);
    assert ([B0(v, w), B1(w, x), B2(x, y)] + rest)[3..] == rest;
    BytesBack(v, w, x, y);
  }

  lemma KnownSymbol(e: Variant, b: Byte)
    requires InAlphabet(e, b)
    ensures Meaning(e, b).Some? && Symbol(e, Meaning(e, b).value) == b && b != PAD
  {
  }

  lemma ShortText(e: Variant, t: Bytes)
    requires |t| <= 4 && DecodeQuanta(e, t).Some?
    ensures SameText(e, Encode(e, DecodeQuanta(e, t).value), t)
    ensures |DecodeQuanta(e, t).value| == (|t| - Padding(e, t)) * 3 / 4
  {
    hide Symbol, Meaning, B0, B1, B2, S0, S1, S2, S3;
    forall b | Meaning(e, b).Some? ensures Symbol(e, Meaning(e, b).value) == b && b != PAD { SymbolBack(e, b); }
    if t != [] && |t| > 1 {
      var v, w := Meaning(e, t[0]).value, Meaning(e, t[1]).value;
      var x := if |t| > 2 && Meaning(e, t[2]).Some? then Meaning(e, t[2]).value else 0;
      var y := if |t| > 3 && Meaning(e, t[3]).Some? then Meaning(e, t[3]).value else 0;
      BytesBack(v, w, x, y);
    }
  }

  /** Text as bytes. */
  function Ascii(s: string): (b: Bytes)
    ensures |b| == |s| && forall i :: 0 <= i < |b| ==> b[i] == s[i] as int % 256
  {
    seq(|s|, i requires 0 <= i < |s| => s[i] as int % 256)
  }

  /** The alphabets of RFC 4648, tables 1 and 2: A to Z, a to z, 0 to 9, and the two that differ. */
  lemma SymbolTable(e: Variant, v: Sextet)
    ensures Symbol(e, 0) == 'A' as int && Symbol(e, 25) == 'Z' as int
    ensures Symbol(e, 26) == 'a' as int && Symbol(e, 51) == 'z' as int
    ensures Symbol(e, 52) == '0' as int && Symbol(e, 61) == '9' as int
    ensures Symbol(e, 62) == (if e.Standard? then '+' as int else '-' as int)
    ensures Symbol(e, 63) == (if e.Standard? then '/' as int else '_' as int)
    ensures v < 62 && v != 25 && v != 51 && v != 61 ==> Symbol(e, v + 1) == Symbol(e, v) + 1
  {
  }

  /** RFC 4648, section 10: "foob" is "Zm9vYg==". */
  lemma TestVector()
    ensures Encode(Standard, [102, 111, 111, 98]) == [90, 109, 57, 118, 89, 103, 61, 61]
  {
    var e := Standard;
    assert [102, 111, 111, 98][3..] == [98];
    assert Symbol(e, S0(102)) == 90 && Symbol(e, S1(102, 111)) == 109;
    assert Symbol(e, S2(111, 111)) == 57 && Symbol(e, S3(111)) == 118;
    assert Symbol(e, S0(98)) == 89 && Symbol(e, S1(98, 0)) == 103;
    hide Symbol, S0, S1, S2, S3;
    assert Encode(e, [98]) == [89, 103, 61, 61];
    assert Encode(e, [102, 111, 111, 98]) == [90, 109, 57, 118] + Encode(e, [98]);
  }
}
