/** ECDSA signatures as DER (section 8 of X.690) and as raw r||s. Lengths pass through
    32-bit signed arithmetic, so they survive exactly below 2^31. */
module Der {
  import opened Records
  import Base64

  type Byte = Base64.Byte

  datatype Error =
    | NotSequence | BadSequenceLength | TrailingData | NotInteger | TruncatedInteger
    | TruncatedLength | UnsupportedLength | TooWide | OddLength

  /** The conversion JavaScript's bitwise operators apply to their operands. */
  function ToInt32(x: int): (r: int)
    ensures -0x8000_0000 <= r < 0x8000_0000
    ensures -0x8000_0000 <= x < 0x8000_0000 ==> r == x
    ensures 0 <= x ==> r <= x
  {
    (x + 0x8000_0000) % 0x1_0000_0000 - 0x8000_0000
  }

  // --- Writing ---

  function StripLeadingZeros(bs: seq<Byte>): seq<Byte> {
    if bs != [] && bs[0] == 0 then StripLeadingZeros(bs[1..]) else bs
  }

  /** Base-256 digits of `value` in front of `bytes`. */
  function LengthBytes(value: int, bytes: seq<Byte>): seq<Byte>
    decreases if value > 0 then value else 0
  {
    if value <= 0 then bytes else LengthBytes(ToInt32(value) / 256, [value % 256] + bytes)
  }

  lemma {:induction false} LengthBytesCount(value: int, bytes: seq<Byte>)
    ensures |LengthBytes(value, bytes)| <= |bytes| + 4
    ensures value < 0x80_0000 ==> |LengthBytes(value, bytes)| <= |bytes| + 3
    ensures value < 0x8000 ==> |LengthBytes(value, bytes)| <= |bytes| + 2
    ensures value < 0x80 ==> |LengthBytes(value, bytes)| <= |bytes| + 1
    ensures value <= 0 ==> |LengthBytes(value, bytes)| == |bytes|
    ensures value > 0 ==> |LengthBytes(value, bytes)| > |bytes|
    decreases if value > 0 then value else 0
  {
    if value > 0 {
      LengthBytesCount(ToInt32(value) / 256, [value % 256] + bytes);
    }
  }

  function DerLength(length: nat): (r: seq<Byte>)
    ensures r != []
  {
    if length < 0x80 then [length]
    else
      LengthBytesCount(length, []);
      [0x80 + |LengthBytes(length, [])|] + LengthBytes(length, [])
  }

  /** Content octets of the non-negative integer with these big-endian digits. */
  function IntegerContents(v: seq<Byte>): seq<Byte> {
    var stripped := StripLeadingZeros(v);
    var bytes := if stripped == [] then [0] else stripped;
    if bytes[0] >= 0x80 then [0] + bytes else bytes
  }

  function DerInteger(v: seq<Byte>): seq<Byte> {
    [0x02] + DerLength(|IntegerContents(v)|) + IntegerContents(v)
  }

  function Payload(raw: seq<Byte>): seq<Byte>
    requires |raw| % 2 == 0
  {
    DerInteger(raw[..|raw| / 2]) + DerInteger(raw[|raw| / 2..])
  }

  function RawToDer(raw: seq<Byte>): Result<seq<Byte>, Error> {
    if |raw| % 2 != 0 then Failure(OddLength) else Success([0x30] + DerLength(|Payload(raw)|) + Payload(raw))
  }

  // --- Reading ---

  predicate At(bs: seq<Byte>, i: int, b: Byte) {
    0 <= i < |bs| && bs[i] == b
  }

  function ReadBytes(length: int, bytes: seq<Byte>): int
    decreases bytes
  {
    if bytes == [] then length else ReadBytes(ToInt32(256 * length + bytes[0]), bytes[1..])
  }

  function ReadDerLength(bs: seq<Byte>, offset: int): Result<(int, int), Error> {
    if !(0 <= offset < |bs|) then Failure(TruncatedLength)
    else
      var first := bs[offset];
      if first < 0x80 then Success((first, offset + 1))
      else
        var size := first - 0x80;
        if size == 0 || size > 4 then Failure(UnsupportedLength)
        else if offset + 1 + size > |bs| then Failure(TruncatedLength)
        else Success((ReadBytes(0, bs[offset + 1..offset + 1 + size]), offset + 1 + size))
  }

  /** `Buffer.slice`: a negative end counts from the back, an end before the start is empty. */
  function JsSlice(bs: seq<Byte>, start: nat, end: int): seq<Byte>
    requires start <= |bs| && end <= |bs|
  {
    var e := if end < 0 then |bs| + end else end;
    if start < e then bs[start..e] else []
  }

  function ReadDerInteger(bs: seq<Byte>, offset: int): Result<(seq<Byte>, int), Error> {
    if !At(bs, offset, 0x02) then Failure(NotInteger)
    else
      var length := ReadDerLength(bs, offset + 1);
      if length.Failure? then Failure(length.error)
      else
        var (n, start) := length.value;
        if start + n > |bs| then Failure(TruncatedInteger)
        else Success((StripLeadingZeros(JsSlice(bs, start, start + n)), start + n))
  }

  function Repeat(n: nat): (r: seq<Byte>)
    ensures |r| == n
  {
    seq(n, _ => 0)
  }

  function LeftPad(v: seq<Byte>, width: nat): Result<seq<Byte>, Error> {
    var stripped := StripLeadingZeros(v);
    if |stripped| > width then Failure(TooWide) else Success(Repeat(width - |stripped|) + stripped)
  }

  function DerToRaw(der: seq<Byte>, width: nat): Result<seq<Byte>, Error> {
    if !At(der, 0, 0x30) then Failure(NotSequence)
    else
      var length := ReadDerLength(der, 1);
      if length.Failure? then Failure(length.error)
      else if length.value.0 != |der| - length.value.1 then Failure(BadSequenceLength)
      else
        var r := ReadDerInteger(der, length.value.1);
        if r.Failure? then Failure(r.error)
        else
          var s := ReadDerInteger(der, r.value.1);
          if s.Failure? then Failure(s.error)
          else if s.value.1 != |der| then Failure(TrailingData)
          else
            var left := LeftPad(r.value.0, width / 2);
            var right := LeftPad(s.value.0, width / 2);
            if left.Failure? then left else if right.Failure? then right else Success(left.value + right.value)
  }

  // --- The loops ---

  method StripLeadingZerosRun(value: seq<Byte>) returns (r: seq<Byte>)
    ensures r == StripLeadingZeros(value)
  {
    var offset := 0;
    while offset < |value| && value[offset] == 0
      invariant offset <= |value| && StripLeadingZeros(value) == StripLeadingZeros(value[offset..])
    {
      assert value[offset..][1..] == value[offset + 1..];
      offset := offset + 1;
    }
    r := value[offset..];
  }

  method DerLengthRun(length: nat) returns (r: seq<Byte>)
    ensures r == DerLength(length)
  {
    if length < 0x80 {
      return [length];
    }
    var bytes: seq<Byte> := [];
    var value: int := length;
    while value > 0
      invariant LengthBytes(length, []) == LengthBytes(value, bytes)
      decreases if value > 0 then value else 0
    {
      bytes := [value % 256] + bytes;
      value := ToInt32(value) / 256;
    }
    LengthBytesCount(length, []);
    r := [0x80 + |bytes|] + bytes;
  }

  method ReadDerLengthRun(bs: seq<Byte>, offset: nat) returns (r: Result<(int, int), Error>)
    ensures r == ReadDerLength(bs, offset)
  {
    if offset >= |bs| {
      return Failure(TruncatedLength);
    }
    var first := bs[offset];
    if first < 0x80 {
      return Success((first, offset + 1));
    }
    var size := first - 0x80;
    if size == 0 || size > 4 {
      return Failure(UnsupportedLength);
    }
    var length := 0;
    var index := 0;
    while index < size
      invariant 0 <= index <= size && offset + 1 + index <= |bs|
      invariant offset + 1 + size <= |bs| ==>
          ReadBytes(0, bs[offset + 1..offset + 1 + size])
            == ReadBytes(length, bs[offset + 1 + index..offset + 1 + size])
    {
      if offset + 1 + index >= |bs| {
        return Failure(TruncatedLength);
      }
      length := ToInt32(256 * length + bs[offset + 1 + index]);
      if offset + 1 + size <= |bs| {
        assert bs[offset + 1 + index..offset + 1 + size][1..] == bs[offset + 2 + index..offset + 1 + size];
      }
      index := index + 1;
    }
    r := Success((length, offset + 1 + size));
  }

  // --- Lengths survive exactly below 2^31 ---

  lemma {:induction false} ReadBackBytes(n: int, bytes: seq<Byte>)
    requires 0 <= n < 0x8000_0000
    ensures ReadBytes(0, LengthBytes(n, bytes)) == ReadBytes(n, bytes)
    decreases n
  {
    if n > 0 {
      ReadBackBytes(n / 256, [n % 256] + bytes);
      assert ([n % 256] + bytes)[1..] == bytes;
    }
  }

  lemma {:induction false} ReadBytesBound(length: int, bytes: seq<Byte>)
    requires length < 0x8000_0000
    ensures ReadBytes(length, bytes) < 0x8000_0000
    decreases bytes
  {
    if bytes != [] {
      ReadBytesBound(ToInt32(256 * length + bytes[0]), bytes[1..]);
    }
  }

  /** Where an encoded length starts does not matter, nor what follows it. */
  lemma LengthRead(before: seq<Byte>, n: nat, after: seq<Byte>)
    ensures var r := ReadDerLength(before + DerLength(n) + after, |before|);
            r.Success? && r.value.1 == |before| + |DerLength(n)| && r.value.0 < 0x8000_0000
              && (r.value.0 == n <==> n < 0x8000_0000)
  {
    hide LengthBytes, ReadBytes, ToInt32;
    var bs := before + DerLength(n) + after;
    assert bs[|before|] == DerLength(n)[0];
    if n >= 0x80 {
      LengthBytesCount(n, []);
      var bytes := LengthBytes(n, []);
      assert bs[|before| + 1..|before| + 1 + |bytes|] == bytes;
      ReadBytesBound(0, bytes);
      if n < 0x8000_0000 {
        ReadBackBytes(n, []);
        assert ReadBytes(n, []) == n by { NoBytes(n); }
      }
    }
  }

  lemma NoBytes(n: int)
    ensures ReadBytes(n, []) == n
  {
  }

  // --- Integers ---

  lemma {:induction false} Stripped(v: seq<Byte>)
    ensures var s := StripLeadingZeros(v);
            |s| <= |v| && (s == [] || s[0] != 0) && v == Repeat(|v| - |s|) + s && StripLeadingZeros(s) == s
  {
    if v != [] && v[0] == 0 {
      Stripped(v[1..]);
      var s := StripLeadingZeros(v[1..]);
      assert v == [0] + v[1..];
      assert Repeat(|v| - |s|) == [0] + Repeat(|v| - 1 - |s|);
    } else {
      assert Repeat(0) == [];
    }
  }

  lemma ContentsStrip(v: seq<Byte>)
    ensures StripLeadingZeros(IntegerContents(v)) == StripLeadingZeros(v)
  {
    Stripped(v);
    var s := StripLeadingZeros(v);
    if s == [] {
      assert IntegerContents(v)[1..] == [];
    } else if s[0] >= 0x80 {
      assert IntegerContents(v)[1..] == s;
    }
  }

  lemma IntegerRead(before: seq<Byte>, v: seq<Byte>, after: seq<Byte>)
    requires |IntegerContents(v)| < 0x8000_0000
    ensures ReadDerInteger(before + DerInteger(v) + after, |before|)
      == Success((StripLeadingZeros(v), |before| + |DerInteger(v)|))
  {
    hide StripLeadingZeros, ReadDerLength, DerLength, IntegerContents;
    var contents := IntegerContents(v);
    var bs := before + DerInteger(v) + after;
    assert bs == before + [0x02] + DerLength(|contents|) + (contents + after);
    LengthRead(before + [0x02], |contents|, contents + after);
    var start := |before| + 1 + |DerLength(|contents|)|;
    assert bs[start..start + |contents|] == contents;
    ContentsStrip(v);
    NonEmptyContents(v);
  }

  lemma NonEmptyContents(v: seq<Byte>)
    ensures IntegerContents(v) != []
  {
  }

  /** The big-endian value of a byte string. */
  function Unsigned(v: seq<Byte>): nat {
    if v == [] then 0 else 256 * Unsigned(v[..|v| - 1]) + v[|v| - 1]
  }

  lemma {:induction false} LeadingZero(v: seq<Byte>)
    ensures Unsigned([0] + v) == Unsigned(v)
  {
    if v != [] {
      LeadingZero(v[..|v| - 1]);
      assert ([0] + v)[..|v|] == [0] + v[..|v| - 1];
    } else {
      assert [0] + v == [0] && [0][..0] == [];
    }
  }

  lemma {:induction false} StrippedValue(v: seq<Byte>)
    ensures Unsigned(StripLeadingZeros(v)) == Unsigned(v)
  {
    if v != [] && v[0] == 0 {
      StrippedValue(v[1..]);
      LeadingZero(v[1..]);
      assert v == [0] + v[1..];
    }
  }

  /** Section 8.3.2 of X.690: the contents are a non-negative two's-complement integer of the
      same value, and its first nine bits are not all zero. */
  lemma MinimalInteger(v: seq<Byte>)
    ensures var c := IntegerContents(v);
            c != [] && c[0] < 0x80 && (|c| > 1 && c[0] == 0 ==> c[1] >= 0x80) && Unsigned(c) == Unsigned(v)
  {
    Stripped(v);
    StrippedValue(v);
    var s := StripLeadingZeros(v);
    LeadingZero(s);
    LeadingZero([]);
    assert [0] + [] == [0];
  }

  // --- Raw to DER to raw ---

  lemma PaddedBack(v: seq<Byte>)
    ensures LeftPad(StripLeadingZeros(v), |v|) == Success(v)
  {
    Stripped(v);
  }

  lemma HalvesRead(raw: seq<Byte>, head: seq<Byte>)
    requires |raw| % 2 == 0 && |Payload(raw)| < 0x8000_0000
    ensures var der := head + Payload(raw);
            var r := ReadDerInteger(der, |head|);
            r.Success? && r.value.0 == StripLeadingZeros(raw[..|raw| / 2]) &&
            ReadDerInteger(der, r.value.1) == Success((StripLeadingZeros(raw[|raw| / 2..]), |der|))
  {
    hide StripLeadingZeros, ReadDerInteger, DerLength, IntegerContents;
    var a, b := raw[..|raw| / 2], raw[|raw| / 2..];
    assert head + Payload(raw) == head + DerInteger(a) + DerInteger(b);
    IntegerRead(head, a, DerInteger(b));
    IntegerRead(head + DerInteger(a), b, []);
    assert head + DerInteger(a) + DerInteger(b) + [] == head + DerInteger(a) + DerInteger(b);
  }

  /** For every even width, the raw signature comes back exactly when the sequence length
      fits 31 bits; past that, the conversion back is refused. */
  lemma RawRoundTrip(raw: seq<Byte>)
    requires |raw| % 2 == 0
    ensures RawToDer(raw).Success?
    ensures |Payload(raw)| < 0x8000_0000 ==> DerToRaw(RawToDer(raw).value, |raw|) == Success(raw)
    ensures |Payload(raw)| >= 0x8000_0000 ==> DerToRaw(RawToDer(raw).value, |raw|) == Failure(BadSequenceLength)
  {
    hide Payload, DerLength, ReadDerLength, ReadDerInteger, StripLeadingZeros, LeftPad;
    var n := |Payload(raw)|;
    var head := [0x30] + DerLength(n);
    var der := RawToDer(raw).value;
    assert der == head + Payload(raw) == [0x30] + DerLength(n) + Payload(raw);
    LengthRead([0x30], n, Payload(raw));
    if n < 0x8000_0000 {
      HalvesRead(raw, head);
      PaddedBack(raw[..|raw| / 2]);
      PaddedBack(raw[|raw| / 2..]);
      assert raw[..|raw| / 2] + raw[|raw| / 2..] == raw;
    }
  }

  /** Both ECDSA widths the module uses are far below the limit. */
  lemma PayloadSize(raw: seq<Byte>)
    requires |raw| % 2 == 0 && |raw| <= 96
    ensures |Payload(raw)| < 0x8000_0000
  {
    hide StripLeadingZeros, LengthBytes;
    var a, b := raw[..|raw| / 2], raw[|raw| / 2..];
    Stripped(a);
    Stripped(b);
  }
}
