/** The two variable-width encodings on the wire: unsigned LEB128 and UTF-8 (section 3 of RFC 3629). */
module TextEncoding {
  import opened Basics

  // ---------- Unsigned LEB128 ----------

  function Leb128(n: nat): (b: seq<Byte>)
    ensures b != []
  {
    if n < 0x80 then [n] else [0x80 + n % 0x80] + Leb128(n / 0x80)
  }

  /** The value at the front of `b` and how many bytes it takes. */
  function ReadLeb128(b: seq<Byte>): (r: Option<(nat, nat)>)
    ensures r.Some? ==> 0 < r.value.1 <= |b|
  {
    if b == [] then None
    else if b[0] < 0x80 then Some((b[0], 1))
    else match ReadLeb128(b[1..])
      case None => None
      case Some((high, len)) => Some((b[0] - 0x80 + 0x80 * high, len + 1))
  }

  lemma {:induction false} Leb128RoundTrip(n: nat, rest: seq<Byte>)
    ensures ReadLeb128(Leb128(n) + rest) == Some((n, |Leb128(n)|))
  {
    if 0x80 <= n {
      Leb128RoundTrip(n / 0x80, rest);
      assert (Leb128(n) + rest)[1..] == Leb128(n / 0x80) + rest;
    }
  }

  /** Byte width of the length prefix, by comparing with the width boundaries. */
  function VarintLen(n: nat): nat {
    if n < 0x80 then 1
    else if n < 0x4000 then 2
    else if n < 0x200000 then 3
    else if n < 0x10000000 then 4
    else 5
  }

  lemma {:induction false} Leb128LengthAtMost(n: nat, width: nat, bound: nat)
    requires 1 <= width && bound == Pow128(width) && n < bound
    ensures |Leb128(n)| <= width
  {
    if 0x80 <= n {
      assert width != 1 by { PowersOf128(); }
      Leb128LengthAtMost(n / 0x80, width - 1, Pow128(width - 1));
    }
  }

  lemma {:induction false} Leb128LengthAtLeast(n: nat, width: nat)
    requires Pow128(width) <= n
    ensures width < |Leb128(n)|
  {
    if 0 < width {
      assert 0x80 <= n by { PowersOf128Positive(width - 1); }
      Leb128LengthAtLeast(n / 0x80, width - 1);
    }
  }

  function Pow128(width: nat): nat {
    if width == 0 then 1 else 0x80 * Pow128(width - 1)
  }

  lemma {:induction false} PowersOf128Positive(width: nat)
    ensures 1 <= Pow128(width)
  {
    if 0 < width { PowersOf128Positive(width - 1); }
  }

  lemma PowersOf128()
    ensures Pow128(1) == 0x80 && Pow128(2) == 0x4000 && Pow128(3) == 0x200000
    ensures Pow128(4) == 0x10000000 && Pow128(5) == 0x800000000
  {
    assert Pow128(2) == 0x80 * Pow128(1);
    assert Pow128(3) == 0x80 * Pow128(2);
    assert Pow128(4) == 0x80 * Pow128(3);
    assert Pow128(5) == 0x80 * Pow128(4);
  }

  /** The width table is exact precisely below 2^35: nothing wider than five bytes is in it. */
  lemma VarintLenExactIff(n: nat)
    ensures VarintLen(n) == |Leb128(n)| <==> n < 0x800000000
  {
    PowersOf128();
    var width := VarintLen(n);
    if n < 0x800000000 {
      Leb128LengthAtMost(n, width, Pow128(width));
      if 1 < width { Leb128LengthAtLeast(n, width - 1); }
    } else {
      Leb128LengthAtLeast(n, 5);
    }
  }

  /** The value of seven-bit groups, the least significant first. */
  function Septets(b: seq<Byte>): nat {
    if b == [] then 0 else b[0] % 0x80 + 0x80 * Septets(b[1..])
  }

  /** The bytes are the number's seven-bit groups, the least significant first, all but the last marked to go on. */
  lemma {:induction false} Leb128IsPositional(n: nat)
    ensures var b := Leb128(n);
            && Septets(b) == n && b[|b| - 1] < 0x80
            && forall i :: 0 <= i < |b| - 1 ==> 0x80 <= b[i]
  {
    if 0x80 <= n {
      Leb128IsPositional(n / 0x80);
      var rest := Leb128(n / 0x80);
      assert Leb128(n)[1..] == rest;
    }
  }

  // ---------- UTF-8 ----------

  predicate IsHigh(u: CodeUnit) { 0xD800 <= u <= 0xDBFF }

  predicate IsLow(u: CodeUnit) { 0xDC00 <= u <= 0xDFFF }

  /** A string opens with a surrogate pair. */
  predicate OpensWithPair(s: JsString) {
    2 <= |s| && IsHigh(s[0]) && IsLow(s[1])
  }

  predicate IsWellFormed(s: JsString) {
    || s == []
    || (OpensWithPair(s) && IsWellFormed(s[2..]))
    || (!IsHigh(s[0]) && !IsLow(s[0]) && IsWellFormed(s[1..]))
  }

  function PairCodePoint(high: CodeUnit, low: CodeUnit): (c: nat)
    requires IsHigh(high) && IsLow(low)
    ensures 0x10000 <= c < 0x110000
  {
    0x10000 + (high - 0xD800) * 0x400 + (low - 0xDC00)
  }

  function EncodeUnit(u: CodeUnit): (b: seq<Byte>)
    ensures |b| == if u < 0x80 then 1 else if u < 0x800 then 2 else 3
  {
    if u < 0x80 then [u]
    else if u < 0x800 then [0xC0 + u / 0x40, 0x80 + u % 0x40]
    else [0xE0 + u / 0x1000, 0x80 + u / 0x40 % 0x40, 0x80 + u % 0x40]
  }

  function EncodePair(c: nat): seq<Byte>
    requires 0x10000 <= c < 0x110000
  {
    [0xF0 + c / 0x40000, 0x80 + c / 0x1000 % 0x40, 0x80 + c / 0x40 % 0x40, 0x80 + c % 0x40]
  }

  const REPLACEMENT: CodeUnit := 0xFFFD

  /** What a text encoder writes: a lone surrogate becomes the replacement character. */
  function Utf8(s: JsString): seq<Byte> {
    if s == [] then []
    else if OpensWithPair(s) then EncodePair(PairCodePoint(s[0], s[1])) + Utf8(s[2..])
    else if IsHigh(s[0]) || IsLow(s[0]) then EncodeUnit(REPLACEMENT) + Utf8(s[1..])
    else EncodeUnit(s[0]) + Utf8(s[1..])
  }

  function Scrub(s: JsString): JsString {
    if s == [] then []
    else if OpensWithPair(s) then s[..2] + Scrub(s[2..])
    else if IsHigh(s[0]) || IsLow(s[0]) then [REPLACEMENT] + Scrub(s[1..])
    else [s[0]] + Scrub(s[1..])
  }

  predicate IsContinuation(b: Byte) { 0x80 <= b < 0xC0 }

  function One(u: CodeUnit): JsString { [u] }

  function Join2(a: int, b: int): int {
    (a - 0xC0) * 0x40 + (b - 0x80)
  }

  function Join3(a: int, b: int, c: int): int {
    (a - 0xE0) * 0x1000 + (b - 0x80) * 0x40 + (c - 0x80)
  }

  function Join4(a: int, b: int, c: int, d: int): int {
    (a - 0xF0) * 0x40000 + (b - 0x80) * 0x1000 + (c - 0x80) * 0x40 + (d - 0x80)
  }

  function SplitPair(c: nat): JsString
    requires 0x10000 <= c < 0x110000
  {
    One(0xD800 + (c - 0x10000) / 0x400) + One(0xDC00 + (c - 0x10000) % 0x400)
  }

  /** The code units of the character at the front of `b` and the bytes it takes; None if malformed. */
  function DecodeFront(b: seq<Byte>): (r: Option<(JsString, nat)>)
    requires b != []
    ensures r.Some? ==> 0 < r.value.1 <= |b|
  {
    if b[0] < 0x80 then Some((One(b[0]), 1))
    else if 0xC0 <= b[0] < 0xE0 && 2 <= |b| && IsContinuation(b[1]) then
      Some((One(Join2(b[0], b[1])), 2))
    else if 0xE0 <= b[0] < 0xF0 && 3 <= |b| && IsContinuation(b[1]) && IsContinuation(b[2]) then
      Some((One(Join3(b[0], b[1], b[2])), 3))
    else if 0xF0 <= b[0] < 0xF8 && 4 <= |b| && IsContinuation(b[1]) && IsContinuation(b[2]) && IsContinuation(b[3]) then
      var c := Join4(b[0], b[1], b[2], b[3]);
      if 0x10000 <= c < 0x110000 then Some((SplitPair(c), 4))
      else None
    else None
  }

  function DecodeUtf8(b: seq<Byte>): Option<JsString> {
    if b == [] then Some([])
    else match DecodeFront(b)
      case None => None
      case Some((units, len)) =>
        match DecodeUtf8(b[len..])
        case None => None
        case Some(rest) => Some(units + rest)
  }

  lemma JoinUndoesUnit(u: CodeUnit)
    ensures 0x80 <= u < 0x800 ==> Join2(0xC0 + u / 0x40, 0x80 + u % 0x40) == u
    ensures Join3(0xE0 + u / 0x1000, 0x80 + u / 0x40 % 0x40, 0x80 + u % 0x40) == u
  {
    assert u / 0x40 / 0x40 == u / 0x1000;
  }

  lemma JoinUndoesPair(c: nat)
    requires 0x10000 <= c < 0x110000
    ensures var b := EncodePair(c);
            && |b| == 4 && 0xF0 <= b[0] < 0xF8
            && IsContinuation(b[1]) && IsContinuation(b[2]) && IsContinuation(b[3])
            && Join4(b[0], b[1], b[2], b[3]) == c
  {
    assert c / 0x40 / 0x40 == c / 0x1000;
    assert c / 0x1000 / 0x40 == c / 0x40000;
  }

  lemma SplitUndoesPair(high: CodeUnit, low: CodeUnit)
    requires IsHigh(high) && IsLow(low)
    ensures SplitPair(PairCodePoint(high, low)) == [high, low]
  {
    var x, y := high - 0xD800, low - 0xDC00;
    assert (x * 0x400 + y) / 0x400 == x;
  }

  lemma UnitRoundTrip(u: CodeUnit, rest: seq<Byte>)
    ensures DecodeFront(EncodeUnit(u) + rest) == Some(([u], |EncodeUnit(u)|))
  {
    JoinUndoesUnit(u);
  }

  lemma PairRoundTrip(high: CodeUnit, low: CodeUnit, rest: seq<Byte>)
    requires IsHigh(high) && IsLow(low)
    ensures DecodeFront(EncodePair(PairCodePoint(high, low)) + rest) == Some(([high, low], 4))
  {
    hide Join4, EncodePair, SplitPair, PairCodePoint, IsContinuation;
    var c := PairCodePoint(high, low);
    JoinUndoesPair(c);
    SplitUndoesPair(high, low);
    assert (EncodePair(c) + rest)[..4] == EncodePair(c);
  }

  /** Decoding what was encoded gives the string back with its lone surrogates replaced. */
  lemma {:induction false} Utf8RoundTrip(s: JsString)
    ensures DecodeUtf8(Utf8(s)) == Some(Scrub(s))
  {
    if s != [] {
      var b := Utf8(s);
      if OpensWithPair(s) {
        Utf8RoundTrip(s[2..]);
        PairRoundTrip(s[0], s[1], Utf8(s[2..]));
        assert b[4..] == Utf8(s[2..]);
        assert s[..2] == [s[0], s[1]];
      } else {
        Utf8RoundTrip(s[1..]);
        var u := if IsHigh(s[0]) || IsLow(s[0]) then REPLACEMENT else s[0];
        UnitRoundTrip(u, Utf8(s[1..]));
        assert b[|EncodeUnit(u)|..] == Utf8(s[1..]);
      }
    }
  }

  lemma {:induction false} ScrubIsIdentityIff(s: JsString)
    ensures Scrub(s) == s <==> IsWellFormed(s)
  {
    if s == [] {
    } else if OpensWithPair(s) {
      ScrubIsIdentityIff(s[2..]);
      assert s == s[..2] + s[2..];
      assert Scrub(s)[2..] == Scrub(s[2..]);
    } else {
      ScrubIsIdentityIff(s[1..]);
      assert s == [s[0]] + s[1..];
      assert Scrub(s)[1..] == Scrub(s[1..]);
    }
  }

  // ---------- As the standard lays it out ----------

  ghost predicate Continues(b: int) {
    b / 0x40 == 2
  }

  /** A code point's bytes (the table of section 3 of RFC 3629): how many there are, their fixed bits, and the code
      point in the others. */
  ghost predicate Encodes(b: seq<int>, c: int) {
    if c < 0x80 then b == [c]
    else if c < 0x800 then
      |b| == 2 && b[0] / 0x20 == 6 && Continues(b[1]) && b[0] % 0x20 * 0x40 + b[1] % 0x40 == c
    else if c < 0x10000 then
      && |b| == 3 && b[0] / 0x10 == 14 && Continues(b[1]) && Continues(b[2])
      && b[0] % 0x10 * 0x1000 + b[1] % 0x40 * 0x40 + b[2] % 0x40 == c
    else
      && |b| == 4 && b[0] / 8 == 30 && Continues(b[1]) && Continues(b[2]) && Continues(b[3])
      && b[0] % 8 * 0x40000 + b[1] % 0x40 * 0x1000 + b[2] % 0x40 * 0x40 + b[3] % 0x40 == c
  }

  /** The code units of the first character, and its code point: a surrogate pair stands for one beyond 0xFFFF
      (section 2 of RFC 2781), a lone surrogate for the replacement character, anything else for itself. */
  ghost predicate BeginsWith(s: JsString, width: nat, c: int) {
    if 2 <= |s| && 0xD800 <= s[0] < 0xDC00 && 0xDC00 <= s[1] < 0xE000
    then width == 2 && c == 0x10000 + (s[0] as int - 0xD800) * 0x400 + (s[1] as int - 0xDC00)
    else if s != [] && 0xD800 <= s[0] < 0xE000 then width == 1 && c == 0xFFFD
    else s != [] && width == 1 && c == s[0] as int
  }

  /** A string is encoded character by character. */
  lemma Utf8IsStandard(s: JsString, width: nat, c: int)
    requires BeginsWith(s, width, c)
    ensures width <= |s| && exists b :: Utf8(s) == b + Utf8(s[width..]) && Encodes(b, c)
  {
    hide Encodes;
    if OpensWithPair(s) {
      PairIsEncoded(PairCodePoint(s[0], s[1]));
      assert Utf8(s) == EncodePair(PairCodePoint(s[0], s[1])) + Utf8(s[2..]);
    } else if IsHigh(s[0]) || IsLow(s[0]) {
      UnitIsEncoded(REPLACEMENT);
      assert Utf8(s) == EncodeUnit(REPLACEMENT) + Utf8(s[1..]);
    } else {
      UnitIsEncoded(s[0]);
      assert Utf8(s) == EncodeUnit(s[0]) + Utf8(s[1..]);
    }
  }

  /** Six bits behind the mark of a byte that goes on. */
  lemma SixBits(x: nat)
    ensures Continues(0x80 + x % 0x40) && (0x80 + x % 0x40) % 0x40 == x % 0x40
  {
  }

  lemma UnitIsEncoded(u: CodeUnit)
    ensures Encodes(EncodeUnit(u), u)
  {
    hide Continues;
    var n: nat := u;
    SixBits(n);
    SixBits(n / 0x40);
    if 0x80 <= u < 0x800 {
      assert (0xC0 + n / 0x40) / 0x20 == 6 && (0xC0 + n / 0x40) % 0x20 == n / 0x40;
    } else if 0x800 <= u {
      assert (0xE0 + n / 0x1000) / 0x10 == 14 && (0xE0 + n / 0x1000) % 0x10 == n / 0x1000;
      assert n / 0x40 / 0x40 == n / 0x1000;
    }
  }

  lemma PairIsEncoded(c: nat)
    requires 0x10000 <= c < 0x110000
    ensures Encodes(EncodePair(c), c)
  {
    hide Continues;
    SixBits(c);
    SixBits(c / 0x40);
    SixBits(c / 0x1000);
    assert (0xF0 + c / 0x40000) / 8 == 30 && (0xF0 + c / 0x40000) % 8 == c / 0x40000;
    assert c / 0x40 / 0x40 == c / 0x1000 && c / 0x1000 / 0x40 == c / 0x40000;
  }
}
