/** A request body carried in the data parameter of a query string. */
module QueryBody {
  import opened Base64Url
  import opened Basics

  /** data= */
  const DATA: JsString := [100, 97, 116, 97, EQUALS]

  /** &data= */
  const AND_DATA: JsString := [AMPERSAND] + DATA

  // ---------- The search as it is done ----------

  predicate OccursAt(s: JsString, sub: JsString, i: int) {
    0 <= i && i + |sub| <= |s| && s[i..i + |sub|] == sub
  }

  function IndexOf(s: JsString, sub: JsString, from: nat): (i: int)
    ensures -1 <= i && (i >= 0 ==> from <= i && OccursAt(s, sub, i))
    ensures forall j :: from <= j && (i < 0 || j < i) ==> !OccursAt(s, sub, j)
    decreases |s| - from
  {
    if from + |sub| > |s| then -1
    else if OccursAt(s, sub, from) then from
    else IndexOf(s, sub, from + 1)
  }

  /** From a position to the next ampersand, or to the end. */
  function UntilAmpersand(q: JsString, start: nat): JsString
    requires start <= |q|
  {
    var amp := IndexOf(q, [AMPERSAND], start);
    if amp < 0 then q[start..] else q[start..amp]
  }

  predicate StartsWithData(q: JsString) {
    |DATA| <= |q| && q[..|DATA|] == DATA
  }

  function ExtractDataParam(q: JsString): Option<JsString> {
    if StartsWithData(q) then Some(UntilAmpersand(q, 5))
    else
      var idx := IndexOf(q, AND_DATA, 0);
      if idx < 0 then None else Some(UntilAmpersand(q, idx + 6))
  }

  /** Nothing when there is a body already or no usable data parameter; otherwise what it decodes to. */
  function DecodeQueryBody(q: JsString, hasBody: bool): Option<Result<JsString, ()>> {
    if hasBody || q == [] then None
    else
      var data := ExtractDataParam(q);
      if data.None? || data.value == [] then None else Some(FromBase64Url(data.value))
  }

  lemma DataIsNamed()
    ensures |DATA| == 5 && forall i :: 0 <= i < 5 ==> DATA[i] == "data="[i] as int
  {
  }

  // ---------- The search as it is meant ----------

  function FirstAmpersand(q: JsString): (n: nat)
    ensures n <= |q| && AMPERSAND !in q[..n] && (n < |q| ==> q[n] == AMPERSAND)
  {
    if q == [] || q[0] == AMPERSAND then 0
    else
      assert q[..1 + FirstAmpersand(q[1..])] == [q[0]] + q[1..][..FirstAmpersand(q[1..])];
      1 + FirstAmpersand(q[1..])
  }

  function Split(q: JsString): seq<JsString> {
    var n := FirstAmpersand(q);
    if n == |q| then [q] else [q[..n]] + Split(q[n + 1..])
  }

  /** The value of the first part that starts with data=. */
  function FirstData(parts: seq<JsString>): Option<JsString> {
    if parts == [] then None
    else if StartsWithData(parts[0]) then Some(parts[0][5..])
    else FirstData(parts[1..])
  }

  lemma NoneBefore(q: JsString)
    ensures forall i :: 0 <= i < FirstAmpersand(q) ==> q[i] != AMPERSAND
  {
    var n := FirstAmpersand(q);
    forall i | 0 <= i < n ensures q[i] != AMPERSAND {
      assert q[i] == q[..n][i];
    }
  }

  lemma AmpersandAt(q: JsString, i: int)
    ensures OccursAt(q, [AMPERSAND], i) <==> 0 <= i < |q| && q[i] == AMPERSAND
  {
    if 0 <= i < |q| { assert q[i..i + 1] == [q[i]]; }
  }

  lemma UntilIsPart(q: JsString, start: nat)
    requires start <= |q|
    ensures UntilAmpersand(q, start) == q[start..][..FirstAmpersand(q[start..])]
  {
    hide OccursAt, FirstAmpersand;
    var rest, amp := q[start..], IndexOf(q, [AMPERSAND], start);
    var n := FirstAmpersand(rest);
    AmpersandAt(q, start + n);
    AmpersandAt(q, amp);
    NoneBefore(rest);
    assert forall i :: 0 <= i < |rest| ==> rest[i] == q[start + i];
    assert start <= amp ==> q[amp] == rest[amp - start];
  }

  /** The first part is the one that starts with data= exactly when the query does. */
  lemma DataStartsFirstPart(q: JsString)
    ensures StartsWithData(q) <==> StartsWithData(q[..FirstAmpersand(q)])
    ensures StartsWithData(q) ==> UntilAmpersand(q, 5) == q[..FirstAmpersand(q)][5..]
  {
    var n := FirstAmpersand(q);
    if StartsWithData(q) {
      forall i | 0 <= i < 5 ensures q[i] != AMPERSAND {
        assert q[i] == q[..5][i] == DATA[i];
      }
      assert q[..n][..5] == q[..5];
      UntilIsPart(q, 5);
      FirstAmpersandShifts(q, 5);
    } else {
      assert n >= 5 ==> q[..n][..5] == q[..5];
    }
  }

  lemma {:induction false} FirstAmpersandShifts(q: JsString, k: nat)
    requires k <= FirstAmpersand(q)
    ensures FirstAmpersand(q[k..]) == FirstAmpersand(q) - k
  {
    if k > 0 {
      FirstAmpersandShifts(q[1..], k - 1);
      assert q[1..][k - 1..] == q[k..];
    }
  }

  lemma OccursFromAmpersand(q: JsString, i: int)
    ensures OccursAt(q, AND_DATA, i) <==> 0 <= i < |q| && q[i] == AMPERSAND && StartsWithData(q[i + 1..])
  {
    assert |AND_DATA| == 6 && AND_DATA[0] == AMPERSAND && AND_DATA[1..] == DATA;
    if 0 <= i && i + 6 <= |q| {
      var part := q[i..i + 6];
      assert part[0] == q[i] && part[1..] == q[i + 1..][..5];
      assert part == [part[0]] + part[1..];
    }
  }

  lemma OccursShifts(q: JsString, k: nat, j: int)
    requires k <= |q| && 0 <= j
    ensures OccursAt(q[k..], AND_DATA, j) <==> OccursAt(q, AND_DATA, k + j)
  {
    if k + j + 6 <= |q| { assert q[k..][j..j + 6] == q[k + j..k + j + 6]; }
  }

  /** Past the first ampersand the search goes on as in the rest of the query. */
  lemma SearchShifts(q: JsString, n: nat)
    requires n == FirstAmpersand(q) < |q|
    ensures var rest, idx := q[n + 1..], IndexOf(q, AND_DATA, 0);
            if StartsWithData(rest) then idx == n
            else idx == if IndexOf(rest, AND_DATA, 0) < 0 then -1 else n + 1 + IndexOf(rest, AND_DATA, 0)
  {
    hide OccursAt, FirstAmpersand, StartsWithData;
    var rest := q[n + 1..];
    var idx, inner := IndexOf(q, AND_DATA, 0), IndexOf(rest, AND_DATA, 0);
    OccursFromAmpersand(q, n);
    OccursFromAmpersand(q, idx);
    NoneBefore(q);
    if idx > n { OccursShifts(q, n + 1, idx - n - 1); }
    if inner >= 0 { OccursShifts(q, n + 1, inner); }
  }

  /** The search finds the first part of the query, split at ampersands, that starts with data=. */
  lemma {:induction false} ExtractsFirstData(q: JsString)
    ensures ExtractDataParam(q) == FirstData(Split(q))
    decreases |q|
  {
    hide IndexOf, UntilAmpersand, StartsWithData, FirstAmpersand;
    var n := FirstAmpersand(q);
    DataStartsFirstPart(q);
    if n == |q| {
      assert q[..n] == q;
      if !StartsWithData(q) { NothingWithoutAmpersand(q); }
    } else {
      var rest := q[n + 1..];
      assert Split(q)[1..] == Split(rest);
      SearchShifts(q, n);
      ExtractsFirstData(rest);
      if !StartsWithData(q) { RestOfSearch(q, n); }
    }
  }

  lemma NothingWithoutAmpersand(q: JsString)
    requires FirstAmpersand(q) == |q|
    ensures IndexOf(q, AND_DATA, 0) == -1
  {
    var idx := IndexOf(q, AND_DATA, 0);
    OccursFromAmpersand(q, idx);
    NoneBefore(q);
  }

  lemma RestOfSearch(q: JsString, n: nat)
    requires n == FirstAmpersand(q) < |q| && !StartsWithData(q)
    ensures ExtractDataParam(q) == ExtractDataParam(q[n + 1..])
  {
    hide IndexOf, FirstAmpersand, UntilAmpersand;
    SearchShifts(q, n);
    var rest := q[n + 1..];
    forall k: nat | k <= |rest| ensures UntilAmpersand(q, n + 1 + k) == UntilAmpersand(rest, k) {
      UntilShifts(q, n, k);
    }
  }

  lemma UntilShifts(q: JsString, n: nat, k: nat)
    requires n + 1 + k <= |q|
    ensures UntilAmpersand(q, n + 1 + k) == UntilAmpersand(q[n + 1..], k)
  {
    hide UntilAmpersand, FirstAmpersand;
    assert q[n + 1..][k..] == q[n + 1 + k..];
    UntilIsPart(q, n + 1 + k);
    UntilIsPart(q[n + 1..], k);
  }

  // ---------- The body comes back ----------

  /** A query whose first data parameter encodes a byte string gives that string back exactly when the string
      is not empty; an empty one counts as no body at all. */
  lemma QueryBodyRoundTrip(q: JsString, s: JsString)
    requires IsByteString(s) && FirstData(Split(q)) == Some(ToBase64Url(s).value)
    ensures DecodeQueryBody(q, false) == if s == [] then None else Some(Ok(s))
  {
    hide Split, ToBase64Url, FromBase64Url, ExtractDataParam;
    Base64UrlRoundTrip(s);
    ExtractsFirstData(q);
    if q == [] { EmptyQueryHasNoData(); }
  }

  lemma EmptyQueryHasNoData()
    ensures FirstData(Split([])) == None
  {
  }

  /** An encoded body cannot be cut short by the query it rides in. */
  lemma EncodedBodyIsOnePart(s: JsString)
    requires IsByteString(s)
    ensures DecodeQueryBody(DATA + ToBase64Url(s).value, false) == if s == [] then None else Some(Ok(s))
  {
    hide ToBase64Url, FromBase64Url;
    Base64UrlRoundTrip(s);
    var data := ToBase64Url(s).value;
    var q := DATA + data;
    assert AMPERSAND !in q by {
      forall i | 0 <= i < |q| ensures q[i] != AMPERSAND {
        if i >= 5 { assert q[i] == data[i - 5] && IsUrlSafe(data[i - 5]); }
      }
    }
    assert q[..FirstAmpersand(q)] == q;
    assert Split(q) == [q];
    assert FirstData([q]) == Some(data);
    QueryBodyRoundTrip(q, s);
  }
}
