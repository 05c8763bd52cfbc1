/** Base64url without padding, as section 5 of RFC 4648 defines it, over strings of bytes. */
module Base64Url {
  import opened Basics

  const PLUS: CodeUnit := 43
  const DASH: CodeUnit := 45
  const SLASH: CodeUnit := 47
  const EQUALS: CodeUnit := 61
  const UNDERSCORE: CodeUnit := 95
  const AMPERSAND: CodeUnit := 38

  type Sextet = v: int | 0 <= v < 64

  // ---------- The host's btoa and atob ----------

  predicate IsByteString(s: JsString) {
    forall i :: 0 <= i < |s| ==> s[i] < 256
  }

  /** The standard alphabet: letters, digits, plus, slash. */
  function CharOf(v: Sextet): CodeUnit {
    if v < 26 then 65 + v else if v < 52 then 71 + v else if v < 62 then v - 4 else if v == 62 then PLUS else SLASH
  }

  function ValueOf(c: CodeUnit): Option<Sextet> {
    if 65 <= c <= 90 then Some(c - 65)
    else if 97 <= c <= 122 then Some(c - 71)
    else if 48 <= c <= 57 then Some(c + 4)
    else if c == PLUS then Some(62)
    else if c == SLASH then Some(63)
    else None
  }

  /** The four characters of up to three bytes, unpadded. */
  function Quad(b: seq<int>): (q: JsString)
    requires 0 < |b| <= 3 && forall i :: 0 <= i < |b| ==> 0 <= b[i] < 256
    ensures |q| == |b| + 1
  {
    if |b| == 1 then [CharOf(b[0] / 4), CharOf(b[0] % 4 * 16)]
    else if |b| == 2 then [CharOf(b[0] / 4), CharOf(b[0] % 4 * 16 + b[1] / 16), CharOf(b[1] % 16 * 4)]
    else [CharOf(b[0] / 4), CharOf(b[0] % 4 * 16 + b[1] / 16), CharOf(b[1] % 16 * 4 + b[2] / 64), CharOf(b[2] % 64)]
  }

  /** Padded standard base64 of a byte string. */
  function Encode(s: JsString): JsString
    requires IsByteString(s)
  {
    if s == [] then []
    else if |s| == 1 then Quad(s) + [EQUALS, EQUALS]
    else if |s| == 2 then Quad(s) + [EQUALS]
    else Quad(s[..3]) + Encode(s[3..])
  }

  /** Throws for a character beyond a byte. */
  function Btoa(s: JsString): Result<JsString, ()> {
    if IsByteString(s) then Ok(Encode(s)) else Err(())
  }

  /** The bytes of up to four characters; spare bits are dropped. */
  function Triple(q: JsString): Option<JsString>
    requires 2 <= |q| <= 4
  {
    var a, b := ValueOf(q[0]), ValueOf(q[1]);
    if a.None? || b.None? then None
    else
      var first: CodeUnit := a.value * 4 + b.value / 16;
      if |q| == 2 then Some([first])
      else
        var c := ValueOf(q[2]);
        if c.None? then None
        else
          var second: CodeUnit := b.value % 16 * 16 + c.value / 4;
          if |q| == 3 then Some([first, second])
          else
            var d := ValueOf(q[3]);
            if d.None? then None else Some([first, second, c.value % 4 * 64 + d.value])
  }

  function Decode(t: JsString): Result<JsString, ()> {
    if t == [] then Ok([])
    else if |t| == 1 then Err(())
    else
      var n := if |t| < 4 then |t| else 4;
      var head, tail := Triple(t[..n]), Decode(t[n..]);
      if head.None? || tail.Err? then Err(()) else Ok(head.value + tail.value)
  }

  predicate IsSpace(c: CodeUnit) {
    c == 9 || c == 10 || c == 12 || c == 13 || c == 32
  }

  function WithoutSpaces(t: JsString): JsString {
    if t == [] then [] else (if IsSpace(t[0]) then [] else [t[0]]) + WithoutSpaces(t[1..])
  }

  /** A multiple of four characters may end in one or two pads. */
  function WithoutPadding(t: JsString): JsString {
    if |t| % 4 != 0 || t == [] || t[|t| - 1] != EQUALS then t
    else if t[|t| - 2] == EQUALS then t[..|t| - 2]
    else t[..|t| - 1]
  }

  /** Forgiving decoding: spaces and missing padding are allowed, anything else throws. */
  function Atob(t: JsString): Result<JsString, ()> {
    Decode(WithoutPadding(WithoutSpaces(t)))
  }

  // ---------- The codec ----------

  function Replace(t: JsString, from: CodeUnit, to: CodeUnit): (r: JsString)
    ensures |r| == |t| && forall i :: 0 <= i < |t| ==> r[i] == if t[i] == from then to else t[i]
  {
    seq(|t|, i requires 0 <= i < |t| => if t[i] == from then to else t[i])
  }

  function WithoutTrailing(t: JsString, c: CodeUnit): JsString {
    if t == [] || t[|t| - 1] != c then t else WithoutTrailing(t[..|t| - 1], c)
  }

  function ToBase64Url(s: JsString): Result<JsString, ()> {
    match Btoa(s)
    case Err(e) => Err(e)
    case Ok(t) => Ok(WithoutTrailing(Replace(Replace(t, PLUS, DASH), SLASH, UNDERSCORE), EQUALS))
  }

  function FromBase64Url(t: JsString): Result<JsString, ()> {
    Atob(Replace(Replace(t, DASH, PLUS), UNDERSCORE, SLASH))
  }

  // ---------- The standard's table ----------

  /** The alphabet of section 4 of RFC 4648: the capital letters, the small ones, the digits, plus and slash. */
  lemma AlphabetIsStandard(v: Sextet)
    ensures CharOf(v) == if v < 26 then 'A' as int + v else if v < 52 then 'a' as int + (v - 26)
                         else if v < 62 then '0' as int + (v - 52) else if v == 62 then '+' as int else '/' as int
    ensures DASH == '-' as int && UNDERSCORE == '_' as int && EQUALS == '=' as int
  {
  }

  /** Up to three bytes are read as one number and written in six-bit digits, the most significant first; the last digit
      is filled up with zeros. */
  lemma QuadIsStandard(b: seq<int>) returns (digits: seq<int>)
    requires 0 < |b| <= 3 && forall i :: 0 <= i < |b| ==> 0 <= b[i] < 256
    ensures |digits| == |b| + 1
    ensures forall i :: 0 <= i < |digits| ==> 0 <= digits[i] < 64 && Quad(b)[i] == CharOf(digits[i])
    ensures if |b| == 1 then digits[0] * 0x40 + digits[1] == b[0] * 0x10
            else if |b| == 2 then digits[0] * 0x1000 + digits[1] * 0x40 + digits[2] == (b[0] * 0x100 + b[1]) * 4
            else digits[0] * 0x40000 + digits[1] * 0x1000 + digits[2] * 0x40 + digits[3] ==
                 b[0] * 0x10000 + b[1] * 0x100 + b[2]
  {
    hide CharOf;
    assert 0 <= b[0] < 256 && (1 < |b| ==> 0 <= b[1] < 256) && (2 < |b| ==> 0 <= b[2] < 256);
    if |b| == 1 {
      digits := [b[0] / 4, b[0] % 4 * 16];
    } else if |b| == 2 {
      digits := [b[0] / 4, b[0] % 4 * 16 + b[1] / 16, b[1] % 16 * 4];
    } else {
      digits := [b[0] / 4, b[0] % 4 * 16 + b[1] / 16, b[1] % 16 * 4 + b[2] / 64, b[2] % 64];
    }
  }

  // ---------- What the codec promises ----------

  /** The url-safe alphabet. */
  predicate IsUrlSafe(c: CodeUnit) {
    65 <= c <= 90 || 97 <= c <= 122 || 48 <= c <= 57 || c == DASH || c == UNDERSCORE
  }

  /** Standard base64 without its padding. */
  function Unpadded(s: JsString): JsString
    requires IsByteString(s)
  {
    if s == [] then [] else if |s| <= 3 then Quad(s) else Quad(s[..3]) + Unpadded(s[3..])
  }

  function Pads(n: nat): (p: JsString)
    ensures |p| == (3 - n % 3) % 3 && forall i :: 0 <= i < |p| ==> p[i] == EQUALS
  {
    seq((3 - n % 3) % 3, _ => EQUALS)
  }

  predicate InAlphabet(t: JsString) {
    forall i :: 0 <= i < |t| ==> ValueOf(t[i]).Some?
  }

  lemma QuadIsInAlphabet(b: JsString)
    requires 0 < |b| <= 3 && IsByteString(b)
    ensures InAlphabet(Quad(b))
  {
  }

  lemma {:induction false} UnpaddedIsInAlphabet(s: JsString)
    requires IsByteString(s)
    ensures InAlphabet(Unpadded(s)) && |Unpadded(s)| % 4 != 1
    ensures Encode(s) == Unpadded(s) + Pads(|s|)
  {
    hide Quad, ValueOf;
    if 0 < |s| <= 3 {
      QuadIsInAlphabet(s);
      if |s| == 3 {
        assert s[..3] == s && s[3..] == [];
      }
    } else if |s| > 3 {
      QuadIsInAlphabet(s[..3]);
      UnpaddedIsInAlphabet(s[3..]);
      assert Pads(|s|) == Pads(|s[3..]|);
      assert Quad(s[..3]) + (Unpadded(s[3..]) + Pads(|s|)) == Quad(s[..3]) + Unpadded(s[3..]) + Pads(|s|);
    }
  }

  lemma {:induction false} TrailingPads(t: JsString, p: JsString)
    requires forall i :: 0 <= i < |p| ==> p[i] == EQUALS
    requires t == [] || t[|t| - 1] != EQUALS
    ensures WithoutTrailing(t + p, EQUALS) == t
  {
    if p == [] {
      assert t + p == t;
    } else {
      assert (t + p)[..|t + p| - 1] == t + p[..|p| - 1];
      TrailingPads(t, p[..|p| - 1]);
    }
  }

  function Swapped(t: JsString): JsString {
    Replace(Replace(t, PLUS, DASH), SLASH, UNDERSCORE)
  }

  function SwappedBack(t: JsString): JsString {
    Replace(Replace(t, DASH, PLUS), UNDERSCORE, SLASH)
  }

  /** The encoding is the unpadded standard one with its two unsafe characters swapped. */
  lemma EncodesUnpadded(s: JsString)
    requires IsByteString(s)
    ensures ToBase64Url(s) == Ok(Swapped(Unpadded(s)))
  {
    hide Unpadded, Encode, WithoutTrailing;
    UnpaddedIsInAlphabet(s);
    var t, p := Unpadded(s), Pads(|s|);
    assert Swapped(t + p) == Swapped(t) + p;
    TrailingPads(Swapped(t), p);
  }

  lemma SwapsBack(t: JsString)
    requires InAlphabet(t)
    ensures SwappedBack(Swapped(t)) == t
    ensures forall i :: 0 <= i < |t| ==> IsUrlSafe(Swapped(t)[i])
  {
  }

  lemma {:induction false} NoSpaces(t: JsString)
    requires InAlphabet(t)
    ensures WithoutSpaces(t) == t && WithoutPadding(t) == t
  {
    if t != [] {
      assert ValueOf(t[0]).Some? && ValueOf(t[|t| - 1]).Some?;
      NoSpaces(t[1..]);
    }
  }

  lemma CharRoundTrip(v: Sextet)
    ensures ValueOf(CharOf(v)) == Some(v)
  {
  }

  lemma QuadRoundTrip(b: JsString)
    requires 0 < |b| <= 3 && IsByteString(b)
    ensures Triple(Quad(b)) == Some(b)
  {
    hide CharOf, ValueOf;
    CharRoundTrip(b[0] / 4);
    if |b| == 1 {
      CharRoundTrip(b[0] % 4 * 16);
      assert b == [b[0]];
    } else {
      CharRoundTrip(b[0] % 4 * 16 + b[1] / 16);
      if |b| == 2 {
        CharRoundTrip(b[1] % 16 * 4);
        assert b == [b[0], b[1]];
      } else {
        CharRoundTrip(b[1] % 16 * 4 + b[2] / 64);
        CharRoundTrip(b[2] % 64);
        assert b == [b[0], b[1], b[2]];
      }
    }
  }

  lemma {:induction false} DecodeInverts(s: JsString)
    requires IsByteString(s)
    ensures Decode(Unpadded(s)) == Ok(s)
  {
    hide Quad, Triple;
    if 0 < |s| <= 3 {
      QuadRoundTrip(s);
      assert Unpadded(s)[..|s| + 1] == Quad(s) && Unpadded(s)[|s| + 1..] == [] && s + [] == s;
    } else if |s| > 3 {
      QuadRoundTrip(s[..3]);
      DecodeInverts(s[3..]);
      assert Unpadded(s)[..4] == Quad(s[..3]) && Unpadded(s)[4..] == Unpadded(s[3..]);
      assert s == s[..3] + s[3..];
    }
  }

  /** Every byte string survives the codec, in url-safe characters only. A string with a character beyond a
      byte is refused. */
  lemma Base64UrlRoundTrip(s: JsString)
    ensures ToBase64Url(s).Ok? <==> IsByteString(s)
    ensures IsByteString(s) ==>
              && FromBase64Url(ToBase64Url(s).value) == Ok(s)
              && (forall i :: 0 <= i < |ToBase64Url(s).value| ==> IsUrlSafe(ToBase64Url(s).value[i]))
              && (ToBase64Url(s).value == [] <==> s == [])
  {
    if IsByteString(s) {
      hide Decode, Encode, WithoutTrailing, WithoutSpaces, WithoutPadding;
      var t := Unpadded(s);
      EncodesUnpadded(s);
      UnpaddedIsInAlphabet(s);
      SwapsBack(t);
      NoSpaces(t);
      DecodeInverts(s);
    }
  }
}
