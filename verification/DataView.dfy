/** The serializer surface: real writers over a buffer, and the measure pass that only counts. */
module DataView {
  import opened Basics
  import opened TextEncoding
  import BufferPool

  // ---------- Counting UTF-8 bytes without encoding ----------

  /** The count the measure pass keeps: every high surrogate takes the next unit with it, paired or not. */
  function Counted(s: JsString): nat {
    if s == [] then 0
    else if s[0] < 0x80 then 1 + Counted(s[1..])
    else if s[0] < 0x800 then 2 + Counted(s[1..])
    else if IsHigh(s[0]) then 4 + if |s| == 1 then 0 else Counted(s[2..])
    else 3 + Counted(s[1..])
  }

  method Utf8ByteLength(str: JsString) returns (bytes: nat)
    ensures bytes == Counted(str)
  {
    bytes := 0;
    var i := 0;
    while i < |str|
      invariant i <= |str| + 1
      invariant bytes + (if i <= |str| then Counted(str[i..]) else 0) == Counted(str)
    {
      var code := str[i];
      if code < 0x80 {
        bytes := bytes + 1;
      } else if code < 0x800 {
        bytes := bytes + 2;
      } else if 0xd800 <= code <= 0xdbff {
        bytes := bytes + 4;
        i := i + 1;
      } else {
        bytes := bytes + 3;
      }
      i := i + 1;
    }
  }

  /** Where a lone high surrogate makes the count drift: it swallows a two-byte unit (one short), a
      three-byte unit (two short), or stands at the very end (one over). */
  datatype Faults = Faults(narrow: nat, wide: nat, dangling: bool)

  function Scan(s: JsString): Faults {
    if s == [] then Faults(0, 0, false)
    else if !IsHigh(s[0]) then Scan(s[1..])
    else if |s| == 1 then Faults(0, 0, true)
    else
      var rest := Scan(s[2..]);
      if IsLow(s[1]) || s[1] < 0x80 || OpensWithPair(s[1..]) then rest
      else if s[1] < 0x800 then rest.(narrow := rest.narrow + 1)
      else rest.(wide := rest.wide + 1)
  }

  lemma {:induction false} CountDrift(s: JsString)
    ensures var f := Scan(s);
            Counted(s) == |Utf8(s)| - f.narrow - 2 * f.wide + if f.dangling then 1 else 0
  {
    if s == [] {
    } else if !IsHigh(s[0]) {
      CountDrift(s[1..]);
    } else if |s| > 1 {
      CountDrift(s[2..]);
      if !IsLow(s[1]) {
        assert Utf8(s) == EncodeUnit(REPLACEMENT) + Utf8(s[1..]);
        assert s[1..][1..] == s[2..];
        if OpensWithPair(s[1..]) {
          assert s[1..][2..] == s[2..][1..];
        }
      }
    }
  }

  /** The count is the encoded length precisely when no lone high surrogate swallowed a wider unit, or when
      a single two-byte one was swallowed and a dangling high surrogate at the end makes up for it. */
  lemma CountIsExactIff(s: JsString)
    ensures Counted(s) == |Utf8(s)| <==>
            Scan(s) == Faults(0, 0, false) || Scan(s) == Faults(1, 0, true)
  {
    CountDrift(s);
  }

  lemma {:induction false} WellFormedHasNoFaults(s: JsString)
    requires IsWellFormed(s)
    ensures Scan(s) == Faults(0, 0, false)
  {
    if s != [] {
      WellFormedHasNoFaults(if OpensWithPair(s) then s[2..] else s[1..]);
    }
  }

  /** A high surrogate ending the string is counted as four bytes; the encoder writes three. */
  lemma DanglingSurrogateIsMiscounted()
    ensures Counted([0xD800]) == 4 && |Utf8([0xD800])| == 3
  {
    assert Utf8([0xD800]) == EncodeUnit(REPLACEMENT) + Utf8([]);
  }

  // ---------- Primitive writes ----------

  /** What a compiled encoder emits: a fixed-width field, a length prefix, or a length-prefixed string. */
  datatype Write = Fixed(bytes: seq<Byte>) | Length(n: nat) | Text(s: JsString)

  function Bytes(w: Write): seq<Byte> {
    match w
    case Fixed(b) => b
    case Length(n) => Leb128(n)
    case Text(s) => Leb128(|Utf8(s)|) + Utf8(s)
  }

  function Measured(w: Write): nat {
    match w
    case Fixed(b) => |b|
    case Length(n) => VarintLen(n)
    case Text(s) => VarintLen(Counted(s)) + Counted(s)
  }

  function AllBytes(ws: seq<Write>): seq<Byte> {
    if ws == [] then [] else AllBytes(ws[..|ws| - 1]) + Bytes(ws[|ws| - 1])
  }

  function AllMeasured(ws: seq<Write>): nat {
    if ws == [] then 0 else AllMeasured(ws[..|ws| - 1]) + Measured(ws[|ws| - 1])
  }

  /** A fixed field is its bytes, a length its seven-bit groups, a text its encoded length and then its encoding. */
  lemma WritesAreStandard(w: Write)
    ensures match w
            case Fixed(b) => Bytes(w) == b
            case Length(n) => Septets(Bytes(w)) == n
            case Text(s) => exists prefix :: Bytes(w) == prefix + Utf8(s) && Septets(prefix) == |Utf8(s)|
  {
    match w
    case Fixed(_) =>
    case Length(n) => Leb128IsPositional(n);
    case Text(s) => Leb128IsPositional(|Utf8(s)|);
  }

  /** A write the measure pass is sure to count exactly. */
  ghost predicate Countable(w: Write) {
    match w
    case Fixed(_) => true
    case Length(n) => n < 0x800000000
    case Text(s) => IsWellFormed(s) && |Utf8(s)| < 0x800000000
  }

  lemma CountableIsExact(w: Write)
    requires Countable(w)
    ensures Measured(w) == |Bytes(w)|
  {
    match w
    case Fixed(_) =>
    case Length(n) => VarintLenExactIff(n);
    case Text(s) =>
      WellFormedHasNoFaults(s);
      CountIsExactIff(s);
      VarintLenExactIff(|Utf8(s)|);
  }

  lemma {:induction false} AllCountableIsExact(ws: seq<Write>)
    requires forall i :: 0 <= i < |ws| ==> Countable(ws[i])
    ensures AllMeasured(ws) == |AllBytes(ws)|
  {
    if ws != [] {
      AllCountableIsExact(ws[..|ws| - 1]);
      CountableIsExact(ws[|ws| - 1]);
    }
  }

  function Uint32(n: nat): (b: seq<Byte>)
    ensures |b| == 4
  {
    [n % 0x100, n / 0x100 % 0x100, n / 0x10000 % 0x100, n / 0x1000000 % 0x100]
  }

  function ReadUint32(b: seq<Byte>): nat
    requires 4 <= |b|
  {
    b[0] as int + 0x100 * b[1] as int + 0x10000 * b[2] as int + 0x1000000 * b[3] as int
  }

  lemma Uint32RoundTrip(n: nat, rest: seq<Byte>)
    ensures ReadUint32(Uint32(n) + rest) == n % 0x1_0000_0000
  {
    assert n / 0x100 / 0x100 == n / 0x10000;
    assert n / 0x10000 / 0x100 == n / 0x1000000;
    assert n % 0x1_0000_0000 == n - 0x1_0000_0000 * (n / 0x1000000 / 0x100) by {
      assert n / 0x1000000 / 0x100 == n / 0x1_0000_0000;
    }
  }

  // ---------- Serializers ----------

  /** Growing buffers never overflow; borrowed ones cannot grow; the measure pass has no bytes at all. */
  datatype Kind = Growing | Borrowed | Sizing

  class Serializer {
    const kind: Kind
    var buffer: BufferPool.Buffer
    /** the write cursor; on a borrowed buffer it may run past the end */
    var index: nat

    ghost predicate Valid()
      reads this
    {
      kind.Growing? ==> index <= buffer.Length
    }

    constructor (kind: Kind, buffer: BufferPool.Buffer)
      ensures Valid() && this.kind == kind && this.buffer == buffer && index == 0
    {
      this.kind, this.buffer, this.index := kind, buffer, 0;
    }

    /** Room for `n` more bytes, on a fresh copy when the buffer is too small. */
    method EnsureCapacity(n: nat)
      requires Valid() && kind.Growing?
      modifies this`buffer
      ensures Valid() && index + n <= buffer.Length
      ensures buffer[..index] == old(buffer[..index])
      ensures buffer == old(buffer) || fresh(buffer)
    {
      if buffer.Length < index + n {
        var grown := new Byte[2 * buffer.Length + index + n];
        forall i | 0 <= i < index { grown[i] := buffer[i]; }
        buffer := grown;
      }
    }

    /** Moves the cursor over a header that is filled in later. */
    method Reserve(n: nat)
      requires Valid() && index == 0
      modifies this
      ensures Valid() && index == n
      ensures buffer == old(buffer) || (kind.Growing? && fresh(buffer))
    {
      if kind.Growing? { EnsureCapacity(n); }
      index := index + n;
    }

    /** Stores bytes at the cursor. Out of range, a borrowed buffer either throws or keeps what fits and
        lets the cursor run on; nothing is promised about its contents then. */
    method Put(bytes: seq<Byte>) returns (threw: bool)
      requires Valid() && !kind.Sizing?
      modifies this, buffer
      ensures Valid()
      ensures buffer == old(buffer) || (kind.Growing? && fresh(buffer))
      ensures !threw ==> index == old(index) + |bytes|
      ensures threw ==> kind.Borrowed? && index == old(index)
      ensures kind.Growing? || old(index) + |bytes| <= buffer.Length ==>
                && !threw && index <= buffer.Length
                && buffer[..index] == old(buffer[..index]) + bytes
    {
      threw := false;
      if kind.Growing? { EnsureCapacity(|bytes|); }
      if buffer.Length < index + |bytes| {
        threw := *;
        if threw { return; }
      }
      ghost var before := buffer[..if index <= buffer.Length then index else 0];
      forall i | index <= i < index + |bytes| && i < buffer.Length { buffer[i] := bytes[i - index]; }
      index := index + |bytes|;
      if index <= buffer.Length {
        assert buffer[..index] == before + bytes;
      }
    }

    /** One primitive write, or its exact cursor movement on the measure pass. */
    method Emit(w: Write) returns (threw: bool)
      requires Valid()
      modifies this, buffer
      ensures Valid()
      ensures buffer == old(buffer) || (kind.Growing? && fresh(buffer))
      ensures kind.Sizing? ==> !threw && index == old(index) + Measured(w) && buffer[..] == old(buffer[..])
      ensures !kind.Sizing? && !threw ==> index == old(index) + |Bytes(w)|
      ensures threw ==> kind.Borrowed?
      ensures kind.Growing? || (kind.Borrowed? && old(index) + |Bytes(w)| <= buffer.Length) ==>
                && !threw && index <= buffer.Length
                && buffer[..index] == old(buffer[..index]) + Bytes(w)
    {
      if kind.Sizing? {
        threw := false;
        match w {
          case Fixed(b) => index := index + |b|;
          case Length(n) => index := index + VarintLen(n);
          case Text(s) =>
            var bytes := Utf8ByteLength(s);
            index := index + VarintLen(bytes) + bytes;
        }
      } else {
        threw := Put(Bytes(w));
      }
    }

    /** Every write of a compiled encoder in order, stopping at the first that throws. */
    method EmitAll(ws: seq<Write>) returns (threw: bool)
      requires Valid()
      modifies this, buffer
      ensures Valid()
      ensures buffer == old(buffer) || (kind.Growing? && fresh(buffer))
      ensures kind.Sizing? ==> !threw && index == old(index) + AllMeasured(ws) && buffer[..] == old(buffer[..])
      ensures !kind.Sizing? && !threw ==> index == old(index) + |AllBytes(ws)|
      ensures threw ==> kind.Borrowed?
      ensures kind.Growing? || (kind.Borrowed? && old(index) + |AllBytes(ws)| <= buffer.Length) ==>
                && !threw && index <= buffer.Length
                && buffer[..index] == old(buffer[..index]) + AllBytes(ws)
    {
      hide Bytes, Measured;
      threw := false;
      var i := 0;
      while i < |ws|
        invariant i <= |ws| && Valid() && !threw
        invariant buffer == old(buffer) || (kind.Growing? && fresh(buffer))
        invariant kind.Sizing? ==> index == old(index) + AllMeasured(ws[..i]) && buffer[..] == old(buffer[..])
        invariant !kind.Sizing? ==> index == old(index) + |AllBytes(ws[..i])|
        invariant kind.Growing? || (kind.Borrowed? && old(index) + |AllBytes(ws)| <= buffer.Length) ==>
                    && index <= buffer.Length
                    && buffer[..index] == old(buffer[..index]) + AllBytes(ws[..i])
      {
        assert ws[..i + 1][..i] == ws[..i];
        PrefixIsShorter(ws, i + 1);
        threw := Emit(ws[i]);
        if threw { return; }
        i := i + 1;
      }
      assert ws[..i] == ws;
    }

    /** Fills in a reserved header; a buffer too short for it throws. */
    method PatchUint32(at: nat, value: nat) returns (threw: bool)
      requires Valid() && (kind.Growing? ==> at + 4 <= buffer.Length)
      modifies buffer
      ensures Valid()
      ensures threw == (kind.Borrowed? && buffer.Length < at + 4)
      ensures !kind.Sizing? && !threw ==>
                buffer[..] == old(buffer[..at]) + Uint32(value) + old(buffer[at + 4..])
      ensures kind.Sizing? ==> buffer[..] == old(buffer[..])
    {
      if kind.Sizing? { return false; }
      if buffer.Length < at + 4 { return true; }
      forall i | 0 <= i < 4 { buffer[at + i] := Uint32(value)[i]; }
      threw := false;
    }
  }

  lemma {:induction false} PrefixIsShorter(ws: seq<Write>, n: nat)
    requires n <= |ws|
    ensures |AllBytes(ws[..n])| <= |AllBytes(ws)|
    decreases |ws| - n
  {
    if n < |ws| {
      assert ws[..n + 1][..n] == ws[..n];
      PrefixIsShorter(ws, n + 1);
    } else {
      assert ws[..n] == ws;
    }
  }
}
