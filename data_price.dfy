/**
 * internal/data/price.go: the JSON decoder of the `Price` type. A price is
 * written as a JSON string whose first code point is a currency symbol,
 * `"$19.99"`; decoding unquotes it, drops the first code point and parses the
 * rest as a number. Any failure yields `ErrInvalidPriceFormat` and leaves the
 * destination unchanged.
 */
module Price {
  import opened Wrappers
  import opened Bytes
  import opened Utf8

  const Quote: byte := 0x22
  const Backslash: byte := 0x5C
  const Newline: byte := 0x0A
  const Dot: byte := 0x2E
  const Plus: byte := 0x2B
  const Minus: byte := 0x2D

  datatype PriceError = ErrInvalidPriceFormat

  // ---------------------------------------------------------------------------
  // strconv.Unquote, for double-quoted text without escape sequences

  /**
   * The slow path of `strconv.Unquote` on text without escapes: ASCII bytes are
   * copied, every other position is decoded and re-encoded, so an ill-formed
   * byte becomes the encoding of U+FFFD.
   */
  function Reencode(c: seq<byte>): seq<byte>
    decreases |c|
  {
    if c == [] then []
    else if c[0] < 0x80 then [c[0]] + Reencode(c[1..])
    else Encode(DecodeRune(c).0) + Reencode(c[DecodeRune(c).1..])
  }

  /** `strconv.Unquote` on a double-quoted JSON string; `None` is `ErrSyntax`. */
  function Unquote(s: seq<byte>): (r: Option<seq<byte>>)
    ensures r.Some? ==> |s| >= 2 && s[0] == Quote && s[|s| - 1] == Quote
    ensures r.Some? ==> ValidString(r.value)
    ensures r.Some? && ValidString(s[1..|s| - 1]) ==> r.value == s[1..|s| - 1]
  {
    if |s| < 2 || s[0] != Quote || s[|s| - 1] != Quote then None
    else
      var c := s[1..|s| - 1];
      if Quote in c || Newline in c || Backslash in c then None
      else if ValidString(c) then Some(c)
      else ReencodeIsValid(c); Some(Reencode(c))
  }

  lemma {:induction false} ReencodeIsValid(c: seq<byte>)
    ensures ValidString(Reencode(c))
    decreases |c|
  {
    if c != [] {
      ReencodeIsValid(c[DecodeRune(c).1..]);
      ReencodeIsValid(c[1..]);
      if c[0] < 0x80 {
        ValidStringAppend(c[0], Reencode(c[1..]));
      } else {
        ValidStringAppend(DecodeRune(c).0, Reencode(c[DecodeRune(c).1..]));
      }
    }
  }

  /** On well-formed text the slow path agrees with the fast path: nothing changes. */
  lemma {:induction false} ReencodeValid(c: seq<byte>)
    requires ValidString(c)
    ensures Reencode(c) == c
    decreases |c|
  {
    if c != [] {
      var n := DecodeRune(c).1;
      assert ValidString(c[n..]);
      ReencodeValid(c[n..]);
      assert c == c[..n] + c[n..];
      if c[0] < 0x80 {
        assert n == 1 && c[..n] == [c[0]];
      } else {
        EncodeDecode(c);
        assert Reencode(c) == Encode(DecodeRune(c).0) + Reencode(c[n..]);
      }
    }
  }

  // ---------------------------------------------------------------------------
  // trimFirstRune

  /** `trimFirstRune`: drop the bytes of the first code point as `DecodeRuneInString` counts them. */
  function TrimFirstRune(s: seq<byte>): (r: seq<byte>)
    ensures |r| <= |s| && r == s[|s| - |r|..]
    ensures s != [] ==> |r| < |s|
    ensures s == [] ==> r == []
    ensures |s| - |r| <= 4
    ensures Invalid(s) ==> r == s[1..]
  {
    s[DecodeRune(s).1..]
  }

  /** The dropped prefix is one whole encoding, RFC 3629 section 3: 1 to 4 bytes. */
  lemma TrimEncoded(cp: int, rest: seq<byte>)
    requires IsScalar(cp)
    ensures TrimFirstRune(Encode(cp) + rest) == rest
    ensures |Encode(cp) + rest| - |rest| == EncodedLength(cp)
  {
    DecodeEncode(cp, rest);
    assert (Encode(cp) + rest)[EncodedLength(cp)..] == rest;
  }

  // ---------------------------------------------------------------------------
  // strconv.ParseFloat, on decimal text

  predicate IsDigit(b: byte)
  {
    0x30 <= b <= 0x39
  }

  predicate AllDigits(s: seq<byte>)
  {
    forall i :: 0 <= i < |s| ==> IsDigit(s[i])
  }

  function DigitsValue(s: seq<byte>): nat
    requires AllDigits(s)
  {
    if s == [] then 0 else DigitsValue(s[..|s| - 1]) * 10 + (s[|s| - 1] - 0x30)
  }

  /** The length of the longest all-digit prefix. */
  function LeadingDigits(s: seq<byte>): (n: nat)
    ensures n <= |s| && AllDigits(s[..n])
    ensures n < |s| ==> !IsDigit(s[n])
  {
    if s == [] || !IsDigit(s[0]) then 0
    else
      var n := 1 + LeadingDigits(s[1..]);
      assert s[..n] == [s[0]] + s[1..][..n - 1];
      n
  }

  function Pow10(e: nat): (r: nat)
    ensures r > 0
  {
    if e == 0 then 1 else 10 * Pow10(e - 1)
  }

  /** Ten to an integer power, as an exact rational. */
  function Scale(e: int): (r: real)
    ensures r > 0.0
  {
    if e >= 0 then Pow10(e) as real else 1.0 / Pow10(-e) as real
  }

  /** An optional exponent part `[eE][+-]?digits`; the empty text is exponent 0. */
  function ParseExponent(s: seq<byte>): Option<int>
  {
    if s == [] then Some(0)
    else if s[0] != 0x65 && s[0] != 0x45 then None
    else
      var t := s[1..];
      var digits := if |t| > 0 && (t[0] == Plus || t[0] == Minus) then t[1..] else t;
      if digits == [] || !AllDigits(digits) then None
      else if |t| > 0 && t[0] == Minus then Some(0 - DigitsValue(digits))
      else Some(DigitsValue(digits))
  }

  /** The pieces of a decimal numeral: sign, digits before and after the point, what follows. */
  datatype Numeral = Numeral(negative: bool, whole: seq<byte>, fraction: seq<byte>, tail: seq<byte>)

  function Split(s: seq<byte>): (n: Numeral)
    ensures AllDigits(n.whole) && AllDigits(n.fraction)
  {
    var negative := |s| > 0 && s[0] == Minus;
    var body := if |s| > 0 && (s[0] == Plus || s[0] == Minus) then s[1..] else s;
    var whole := body[..LeadingDigits(body)];
    var rest := body[|whole|..];
    var hasPoint := |rest| > 0 && rest[0] == Dot;
    var fraction := if hasPoint then rest[1..][..LeadingDigits(rest[1..])] else [];
    var tail := if hasPoint then rest[1 + |fraction|..] else rest;
    Numeral(negative, whole, fraction, tail)
  }

  /**
   * `strconv.ParseFloat(s, 64)` read exactly: an optional sign, digits with at
   * most one decimal point and at least one digit, an optional exponent, and
   * nothing after. `None` stands for the error result.
   */
  function ParseNumber(s: seq<byte>): Option<real>
  {
    var n := Split(s);
    if |n.whole| + |n.fraction| == 0 then None
    else
      match ParseExponent(n.tail)
      case None => None
      case Some(e) => Some(Value(n, e))
  }

  /** The exact value of a numeral with exponent `e`. */
  function Value(n: Numeral, e: int): real
    requires AllDigits(n.whole) && AllDigits(n.fraction)
  {
    var m := Magnitude(DigitsValue(n.whole + n.fraction), e - |n.fraction|);
    if n.negative then -m else m
  }

  /** `x` times ten to the power `e`. */
  function Magnitude(x: nat, e: int): real
  {
    x as real * Scale(e)
  }

  /** A negative power of ten divides. */
  lemma MagnitudeFraction(x: nat, k: nat)
    ensures Magnitude(x, 0 - k) == x as real / Pow10(k) as real
  {
    var p := Pow10(k) as real;
    assert Scale(0 - k) == 1.0 / p;
    assert x as real * (1.0 / p) == x as real / p;
  }

  lemma {:induction false} DigitsValueAppend(a: seq<byte>, b: seq<byte>)
    requires AllDigits(a) && AllDigits(b)
    ensures AllDigits(a + b)
    ensures DigitsValue(a + b) == DigitsValue(a) * Pow10(|b|) + DigitsValue(b)
    decreases |b|
  {
    if b == [] {
      assert a + b == a;
    } else {
      var c := a + b;
      var front := b[..|b| - 1];
      var last := b[|b| - 1] - 0x30;
      assert c[..|c| - 1] == a + front;
      DigitsValueAppend(a, front);
      Shift(DigitsValue(a), Pow10(|front|), DigitsValue(front), last);
    }
  }

  lemma Shift(x: int, p: int, y: int, d: int)
    ensures (x * p + y) * 10 + d == x * (p * 10) + (y * 10 + d)
  {
  }

  lemma LeadingDigitsAll(d: seq<byte>, rest: seq<byte>)
    requires AllDigits(d)
    requires rest == [] || !IsDigit(rest[0])
    ensures LeadingDigits(d + rest) == |d|
  {
    var s := d + rest;
    var n := LeadingDigits(s);
    assert forall i :: 0 <= i < |d| ==> s[i] == d[i];
    assert forall i :: 0 <= i < n ==> IsDigit(s[..n][i]) && s[..n][i] == s[i];
    assert |d| < |s| ==> s[|d|] == rest[0];
  }

  lemma ParseSplit(s: seq<byte>, whole: seq<byte>, fraction: seq<byte>)
    requires AllDigits(whole) && AllDigits(fraction) && |whole| + |fraction| > 0
    requires Split(s) == Numeral(false, whole, fraction, [])
    ensures ParseNumber(s) == Some(Magnitude(DigitsValue(whole + fraction), 0 - |fraction|))
  {
    var n := Split(s);
    assert n.tail == [];
    assert ParseExponent(n.tail) == Some(0);
    assert |n.whole| + |n.fraction| != 0;
    assert ParseNumber(s) == Some(Value(n, 0));
    assert n.whole == whole && n.fraction == fraction && !n.negative;
  }

  /** A plain numeral `d` parses to its value. */
  lemma ParseWhole(d: seq<byte>)
    requires d != [] && AllDigits(d)
    ensures ParseNumber(d) == Some(DigitsValue(d) as real)
  {
    LeadingDigitsAll(d, []);
    assert d + [] == d;
    assert Split(d) == Numeral(false, d, [], []);
    ParseSplit(d, d, []);
    assert Scale(0) == 1.0;
    assert Magnitude(DigitsValue(d), 0) == DigitsValue(d) as real;
  }

  lemma SplitFixed(d: seq<byte>, f: seq<byte>)
    requires AllDigits(d) && AllDigits(f)
    ensures Split(d + [Dot] + f) == Numeral(false, d, f, [])
  {
    var s := d + [Dot] + f;
    assert s == d + ([Dot] + f);
    LeadingDigitsAll(d, [Dot] + f);
    assert s[..|d|] == d;
    var rest := s[|d|..];
    assert rest == [Dot] + f;
    assert rest[1..] == f;
    LeadingDigitsAll(f, []);
    assert f + [] == f;
    assert f[..|f|] == f;
  }

  /** A numeral `d.f` parses to the exact rational d + f / 10^|f|. */
  lemma ParseFixed(d: seq<byte>, f: seq<byte>)
    requires d != [] && AllDigits(d) && AllDigits(f)
    ensures ParseNumber(d + [Dot] + f) == Some(DigitsValue(d + f) as real / Pow10(|f|) as real)
  {
    SplitFixed(d, f);
    ParseSplit(d + [Dot] + f, d, f);
    MagnitudeFraction(DigitsValue(d + f), |f|);
  }

  // ---------------------------------------------------------------------------
  // Price.UnmarshalJSON

  /** The state after `(*Price).UnmarshalJSON`: the value of `*p` and the error returned. */
  datatype Unmarshalled = Unmarshalled(price: real, err: Option<PriceError>)

  /**
   * `(*Price).UnmarshalJSON(json)` on a price that held `p`: unquote, drop the
   * first code point, parse. `*p` is written only when every step succeeds.
   */
  function UnmarshalJSON(p: real, json: seq<byte>): (r: Unmarshalled)
    ensures r.err.Some? ==> r == Unmarshalled(p, Some(ErrInvalidPriceFormat))
    ensures Unquote(json).None? ==> r.err.Some?
    ensures r.err.None? <==>
      Unquote(json).Some? && ParseNumber(TrimFirstRune(Unquote(json).value)).Some?
    ensures r.err.None? ==> r.price == ParseNumber(TrimFirstRune(Unquote(json).value)).value
  {
    match Unquote(json)
    case None => Unmarshalled(p, Some(ErrInvalidPriceFormat))
    case Some(text) =>
      match ParseNumber(TrimFirstRune(text))
      case None => Unmarshalled(p, Some(ErrInvalidPriceFormat))
      case Some(f) => Unmarshalled(f, None)
  }

  lemma {:induction false} AsciiValid(s: seq<byte>)
    requires forall i :: 0 <= i < |s| ==> s[i] < 0x80
    ensures ValidString(s)
    decreases |s|
  {
    if s != [] {
      AsciiValid(s[1..]);
    }
  }

  /** Text that is well-formed and free of quotes, newlines and backslashes unquotes to itself. */
  lemma UnquotePlain(text: seq<byte>)
    requires ValidString(text) && Quote !in text && Newline !in text && Backslash !in text
    ensures Unquote([Quote] + text + [Quote]) == Some(text)
  {
    var json := [Quote] + text + [Quote];
    assert json[1..|json| - 1] == text;
  }

  /** A digit, a point: ASCII bytes other than the quote, the newline and the backslash. */
  predicate PlainAscii(s: seq<byte>)
  {
    forall i :: 0 <= i < |s| ==> s[i] < 0x80 && s[i] != Quote && s[i] != Newline && s[i] != Backslash
  }

  lemma SymbolText(symbol: int, amount: seq<byte>)
    requires IsScalar(symbol) && symbol != Quote && symbol != Backslash && symbol != Newline
    requires PlainAscii(amount)
    ensures ValidString(Encode(symbol) + amount)
    ensures Quote !in Encode(symbol) + amount && Newline !in Encode(symbol) + amount
    ensures Backslash !in Encode(symbol) + amount
  {
    AsciiValid(amount);
    ValidStringAppend(symbol, amount);
    var e := Encode(symbol);
    EncodeBytes(symbol);
    assert Quote !in e && Newline !in e && Backslash !in e;
    assert Quote !in amount && Newline !in amount && Backslash !in amount;
  }

  /**
   * Round trip: a quoted currency symbol (any scalar value other than the
   * quote, the backslash and the newline) followed by `d.f` decodes to d.f.
   */
  lemma UnmarshalSymbolAmount(p: real, symbol: int, d: seq<byte>, f: seq<byte>)
    requires IsScalar(symbol) && symbol != Quote && symbol != Backslash && symbol != Newline
    requires d != [] && AllDigits(d) && AllDigits(f)
    ensures UnmarshalJSON(p, [Quote] + Encode(symbol) + d + [Dot] + f + [Quote])
         == Unmarshalled(DigitsValue(d + f) as real / Pow10(|f|) as real, None)
  {
    var amount := d + [Dot] + f;
    assert [Quote] + Encode(symbol) + d + [Dot] + f + [Quote] == [Quote] + Encode(symbol) + amount + [Quote];
    PlainAmount(d, f);
    UnquoteSymbol(symbol, amount);
    TrimEncoded(symbol, amount);
    ParseFixed(d, f);
  }

  lemma UnquoteSymbol(symbol: int, amount: seq<byte>)
    requires IsScalar(symbol) && symbol != Quote && symbol != Backslash && symbol != Newline
    requires PlainAscii(amount)
    ensures Unquote([Quote] + Encode(symbol) + amount + [Quote]) == Some(Encode(symbol) + amount)
  {
    var text := Encode(symbol) + amount;
    assert [Quote] + Encode(symbol) + amount + [Quote] == [Quote] + text + [Quote];
    SymbolText(symbol, amount);
    UnquotePlain(text);
  }

  lemma PlainAmount(d: seq<byte>, f: seq<byte>)
    requires AllDigits(d) && AllDigits(f)
    ensures PlainAscii(d + [Dot] + f)
  {
    var amount := d + [Dot] + f;
    forall i | 0 <= i < |amount| ensures amount[i] < 0x80 && amount[i] != Quote && amount[i] != Newline && amount[i] != Backslash {
      if i < |d| { assert amount[i] == d[i]; }
      else if i > |d| { assert amount[i] == f[i - |d| - 1]; }
    }
  }

  /** Rewrites a quotient of naturals once its operands are known, keeping the real division out of the digit arithmetic. */
  lemma SameQuotient(x: nat, q: nat, a: nat, b: nat)
    requires x == a && q == b && b > 0
    ensures x as real / q as real == a as real / b as real
  {
  }

  /** Concrete instance: `"$19.99"` decodes to 19.99. */
  lemma DollarExample(p: real, json: seq<byte>)
    requires json == [Quote, 0x24, 0x31, 0x39, Dot, 0x39, 0x39, Quote]
    ensures UnmarshalJSON(p, json) == Unmarshalled(19.99, None)
  {
    var d: seq<byte> := [0x31, 0x39];
    var f: seq<byte> := [0x39, 0x39];
    assert json == [Quote] + Encode(0x24) + d + [Dot] + f + [Quote];
    UnmarshalSymbolAmount(p, 0x24, d, f);
    AmountValue(d, f, 19, 99, 19.99);
  }

  /** No currency check: without a symbol the first digit is dropped, `"19.99"` decodes to 9.99. */
  lemma NoSymbolExample(p: real, json: seq<byte>)
    requires json == [Quote, 0x31, 0x39, Dot, 0x39, 0x39, Quote]
    ensures UnmarshalJSON(p, json) == Unmarshalled(9.99, None)
  {
    var d: seq<byte> := [0x39];
    var f: seq<byte> := [0x39, 0x39];
    assert json == [Quote] + Encode(0x31) + d + [Dot] + f + [Quote];
    UnmarshalSymbolAmount(p, 0x31, d, f);
    AmountValue(d, f, 9, 99, 9.99);
  }

  /** The value of `d.f` with two fraction digits, from the values of `d` and `f`. */
  lemma AmountValue(d: seq<byte>, f: seq<byte>, x: nat, y: nat, v: real)
    requires AllDigits(d) && AllDigits(f) && |f| == 2
    requires DigitsValue(d) == x && DigitsValue(f) == y && v == (100 * x + y) as real / 100.0
    ensures DigitsValue(d + f) as real / Pow10(|f|) as real == v
  {
    AmountDigits(d, f, x, y);
    assert Pow10(|f|) == 100 by {
      assert Pow10(1) == 10;
    }
    SameQuotient(DigitsValue(d + f), Pow10(|f|), 100 * x + y, 100);
  }

  lemma AmountDigits(d: seq<byte>, f: seq<byte>, x: nat, y: nat)
    requires AllDigits(d) && AllDigits(f) && |f| == 2
    requires DigitsValue(d) == x && DigitsValue(f) == y
    ensures AllDigits(d + f) && DigitsValue(d + f) == 100 * x + y
  {
    DigitsValueAppend(d, f);
    var p := Pow10(|f|);
    assert p == 100 by {
      assert Pow10(1) == 10;
    }
    assert DigitsValue(d + f) == x * p + y;
  }

  /** A JSON `null` or a bare JSON number is not a quoted string: the price is left as it was. */
  lemma UnquotedRejected(p: real)
    ensures UnmarshalJSON(p, [0x6E, 0x75, 0x6C, 0x6C]) == Unmarshalled(p, Some(ErrInvalidPriceFormat))
    ensures UnmarshalJSON(p, [0x31, 0x39, Dot, 0x39, 0x39]) == Unmarshalled(p, Some(ErrInvalidPriceFormat))
  {
  }
}
