/** The base64 codec shared by `frontend/src/lib/pty.ts` and the daemon: section 4 of RFC 4648. */
module Base64 {
  import opened Wrappers

  type Byte = x: int | 0 <= x < 256
  type Sextet = x: int | 0 <= x < 64

  const PAD: char := '='

  /** Table 1 of RFC 4648. */
  function Digit(v: Sextet): char {
    if v < 26 then 'A' + v as char
    else if v < 52 then 'a' + (v - 26) as char
    else if v < 62 then '0' + (v - 52) as char
    else if v == 62 then '+' else '/'
  }

  function Value(c: char): Option<Sextet> {
    if 'A' <= c <= 'Z' then Some(c as int - 'A' as int)
    else if 'a' <= c <= 'z' then Some(c as int - 'a' as int + 26)
    else if '0' <= c <= '9' then Some(c as int - '0' as int + 52)
    else if c == '+' then Some(62) else if c == '/' then Some(63) else None
  }

  // A group of three bytes is four sextets, most significant bits first.

  function Sextet0(b0: Byte): Sextet { b0 / 4 }
  function Sextet1(b0: Byte, b1: Byte): Sextet { b0 % 4 * 16 + b1 / 16 }
  function Sextet2(b1: Byte, b2: Byte): Sextet { b1 % 16 * 4 + b2 / 64 }
  function Sextet3(b2: Byte): Sextet { b2 % 64 }

  function Byte0(v0: Sextet, v1: Sextet): Byte { v0 * 4 + v1 / 16 }
  function Byte1(v1: Sextet, v2: Sextet): Byte { v1 % 16 * 16 + v2 / 4 }
  function Byte2(v2: Sextet, v3: Sextet): Byte { v2 % 4 * 64 + v3 }

  /** Missing bytes of the last group count as zero. */
  function Encode(b: seq<Byte>): string {
    if b == [] then ""
    else if |b| == 1 then [Digit(Sextet0(b[0])), Digit(Sextet1(b[0], 0)), PAD, PAD]
    else if |b| == 2 then [Digit(Sextet0(b[0])), Digit(Sextet1(b[0], b[1])), Digit(Sextet2(b[1], 0)), PAD]
    else [Digit(Sextet0(b[0])), Digit(Sextet1(b[0], b[1])), Digit(Sextet2(b[1], b[2])), Digit(Sextet3(b[2]))]
         + Encode(b[3..])
  }

  /** Padding is demanded and only allowed at the end; leftover bits are ignored. */
  function Decode(s: string): Option<seq<Byte>> {
    if s == "" then Some([])
    else if |s| < 4 then None
    else
      var v0, v1, v2, v3 := Value(s[0]), Value(s[1]), Value(s[2]), Value(s[3]);
      if v0.None? || v1.None? then None
      else if |s| == 4 && s[2] == PAD && s[3] == PAD then Some([Byte0(v0.value, v1.value)])
      else if v2.None? then None
      else if |s| == 4 && s[3] == PAD then Some([Byte0(v0.value, v1.value), Byte1(v1.value, v2.value)])
      else if v3.None? then None
      else
        match Decode(s[4..])
        case None => None
        case Some(rest) =>
          Some([Byte0(v0.value, v1.value), Byte1(v1.value, v2.value), Byte2(v2.value, v3.value)] + rest)
  }

  lemma BytesOfSextets(b0: Byte, b1: Byte, b2: Byte)
    ensures Byte0(Sextet0(b0), Sextet1(b0, b1)) == b0
    ensures Byte1(Sextet1(b0, b1), Sextet2(b1, b2)) == b1
    ensures Byte2(Sextet2(b1, b2), Sextet3(b2)) == b2
  {
    assert Sextet1(b0, b1) / 16 == b0 % 4 && Sextet1(b0, b1) % 16 == b1 / 16;
    assert Sextet2(b1, b2) / 4 == b1 % 16 && Sextet2(b1, b2) % 4 == b2 / 64;
  }

  lemma SextetsOfBytes(v0: Sextet, v1: Sextet, v2: Sextet, v3: Sextet)
    ensures Sextet0(Byte0(v0, v1)) == v0
    ensures Sextet1(Byte0(v0, v1), Byte1(v1, v2)) == v1
    ensures Sextet2(Byte1(v1, v2), Byte2(v2, v3)) == v2
    ensures Sextet3(Byte2(v2, v3)) == v3
    ensures Sextet1(Byte0(v0, v1), 0) == v1 <==> v1 % 16 == 0
    ensures Sextet2(Byte1(v1, v2), 0) == v2 <==> v2 % 4 == 0
  {
    assert Byte0(v0, v1) / 4 == v0 && Byte0(v0, v1) % 4 == v1 / 16;
    assert Byte1(v1, v2) / 16 == v1 % 16 && Byte1(v1, v2) % 16 == v2 / 4;
    assert Byte2(v2, v3) / 64 == v2 % 4 && Byte2(v2, v3) % 64 == v3;
  }

  lemma ValueOfDigit(v: Sextet)
    ensures Value(Digit(v)) == Some(v) && Digit(v) != PAD
  {
  }

  lemma DigitOfValue(c: char)
    ensures Value(c).Some? ==> Digit(Value(c).value) == c && c != PAD
  {
  }

  lemma {:induction false} DecodeEncode(b: seq<Byte>)
    ensures Decode(Encode(b)) == Some(b)
  {
    hide Digit, Value, Sextet0, Sextet1, Sextet2, Sextet3, Byte0, Byte1, Byte2;
    if b != [] {
      var b1, b2 := if |b| > 1 then b[1] else 0, if |b| > 2 then b[2] else 0;
      BytesOfSextets(b[0], b1, b2);
      ValueOfDigit(Sextet0(b[0]));
      ValueOfDigit(Sextet1(b[0], b1));
      ValueOfDigit(Sextet2(b1, b2));
      ValueOfDigit(Sextet3(b2));
      if |b| == 1 {
        assert b == [b[0]];
      } else if |b| == 2 {
        assert b == [b[0], b[1]];
      } else {
        DecodeEncode(b[3..]);
        assert Encode(b)[4..] == Encode(b[3..]);
        assert b == [b[0], b[1], b[2]] + b[3..];
      }
    }
  }

  /** Distinct byte sequences have distinct encodings. */
  lemma EncodeInjective(a: seq<Byte>, b: seq<Byte>)
    requires Encode(a) == Encode(b)
    ensures a == b
  {
    DecodeEncode(a);
    DecodeEncode(b);
  }

  /** The bits a padded last group carries beyond its bytes are zero. */
  predicate LeftoverBitsZero(s: string) {
    |s| >= 4 ==>
      var t := s[|s| - 4..];
      && (t[3] == PAD && t[2] == PAD ==> Value(t[1]).Some? && Value(t[1]).value % 16 == 0)
      && (t[3] == PAD && t[2] != PAD ==> Value(t[2]).Some? && Value(t[2]).value % 4 == 0)
  }

  /** Among the strings that decode, the encoder's outputs are exactly those without leftover bits. */
  lemma {:induction false} EncodeDecode(s: string)
    requires Decode(s).Some?
    ensures Encode(Decode(s).value) == s <==> LeftoverBitsZero(s)
  {
    if s != "" {
      DigitOfValue(s[3]);
      if s[3] == PAD {
        EncodeDecodeLast(s);
      } else {
        EncodeDecodeFirst(s);
        EncodeDecode(s[4..]);
        if |s| > 4 { assert s[|s| - 4..] == s[4..][|s[4..]| - 4..]; }
      }
    }
  }

  lemma EncodeDecodeFirst(s: string)
    requires Decode(s).Some? && s != "" && s[3] != PAD
    ensures Decode(s[4..]).Some?
    ensures Encode(Decode(s).value) == s <==> Encode(Decode(s[4..]).value) == s[4..]
  {
    hide Digit, Value, Sextet0, Sextet1, Sextet2, Sextet3, Byte0, Byte1, Byte2;
    DigitOfValue(s[0]);
    DigitOfValue(s[1]);
    DigitOfValue(s[2]);
    DigitOfValue(s[3]);
    SextetsOfBytes(Value(s[0]).value, Value(s[1]).value, Value(s[2]).value, Value(s[3]).value);
    var b := Decode(s).value;
    assert b[3..] == Decode(s[4..]).value;
    assert Encode(b) == [s[0], s[1], s[2], s[3]] + Encode(b[3..]);
    assert s == [s[0], s[1], s[2], s[3]] + s[4..];
    assert Encode(b)[4..] == Encode(b[3..]);
  }

  lemma EncodeDecodeLast(s: string)
    requires Decode(s).Some? && |s| == 4 && s[3] == PAD
    ensures Encode(Decode(s).value) == s <==> LeftoverBitsZero(s)
  {
    hide Digit, Value, Sextet0, Sextet1, Sextet2, Sextet3, Byte0, Byte1, Byte2;
    DigitOfValue(s[0]);
    DigitOfValue(s[1]);
    DigitOfValue(s[2]);
    assert s[|s| - 4..] == s;
    var v0, v1 := Value(s[0]).value, Value(s[1]).value;
    if s[2] == PAD {
      SextetsOfBytes(v0, v1, 0, 0);
      LastDigitTells([s[0]], s[1], Sextet1(Byte0(v0, v1), 0), v1, [PAD, PAD]);
    } else {
      var v2 := Value(s[2]).value;
      SextetsOfBytes(v0, v1, v2, 0);
      LastDigitTells([s[0], s[1]], s[2], Sextet2(Byte1(v1, v2), 0), v2, [PAD]);
    }
  }

  lemma LastDigitTells(pre: string, c: char, v: Sextet, w: Sextet, post: string)
    requires Value(c) == Some(w)
    ensures pre + [Digit(v)] + post == pre + [c] + post <==> v == w
  {
    hide Digit, Value;
    ValueOfDigit(v);
    DigitOfValue(c);
    assert (pre + [Digit(v)] + post)[|pre|] == Digit(v) && (pre + [c] + post)[|pre|] == c;
  }

  lemma {:induction false} EncodedLength(b: seq<Byte>)
    ensures |Encode(b)| == 4 * ((|b| + 2) / 3)
  {
    hide Digit;
    if |b| > 2 { EncodedLength(b[3..]); }
  }

  /** One read of the PTY master is at most 4 KiB, so one frame carries at most 5464 characters. */
  lemma ReadFitsFrame(b: seq<Byte>)
    requires |b| <= 4096
    ensures |Encode(b)| <= 5464
  {
    EncodedLength(b);
  }

  /** The number the first `n` digits of a string spell in base 64. */
  function Spelled(s: string, n: nat): int
    requires n <= |s|
  {
    if n == 0 then 0
    else Spelled(s, n - 1) * 64 + (match Value(s[n - 1]) case Some(v) => v case None => 0)
  }

  function Number(b: seq<Byte>, n: nat): int
    requires n <= |b|
  {
    if n == 0 then 0 else Number(b, n - 1) * 256 + b[n - 1]
  }

  /** Section 4: four digits spell the same number as three bytes, and a short last group is filled
      with zero bits and padding. */
  lemma Groups(b: seq<Byte>)
    requires b != []
    ensures |Encode(b)| >= 4
    ensures |b| == 1 ==> Encode(b)[2..] == "==" && Spelled(Encode(b), 2) == Number(b, 1) * 16
    ensures |b| == 2 ==> Encode(b)[3..] == "=" && Spelled(Encode(b), 3) == Number(b, 2) * 4
    ensures |b| >= 3 ==> Encode(b)[4..] == Encode(b[3..]) && Spelled(Encode(b), 4) == Number(b, 3)
  {
    var b1, b2 := if |b| > 1 then b[1] else 0, if |b| > 2 then b[2] else 0;
    var s := Encode(b);
    ValueOfDigit(Sextet0(b[0]));
    ValueOfDigit(Sextet1(b[0], b1));
    ValueOfDigit(Sextet2(b1, b2));
    ValueOfDigit(Sextet3(b2));
    assert Spelled(s, 1) == Sextet0(b[0]) && Spelled(s, 2) == Sextet0(b[0]) * 64 + Sextet1(b[0], b1);
    assert Number(b, 1) == b[0];
    if |b| > 1 {
      assert Spelled(s, 3) == Spelled(s, 2) * 64 + Sextet2(b1, b2);
      assert Number(b, 2) == b[0] as int * 256 + b1;
    }
  }

  // ---- The browser side ----------------------------------------------------------------------

  const CHUNK: nat := 0x8000

  /** `String.fromCharCode(...bytes)`. */
  function FromCharCodes(b: seq<Byte>): string {
    seq(|b|, i requires 0 <= i < |b| => b[i] as char)
  }

  function CharCodes(s: string): Option<seq<Byte>> {
    if forall i :: 0 <= i < |s| ==> s[i] < 256 as char
    then Some(seq(|s|, i requires 0 <= i < |s| && s[i] < 256 as char => s[i] as int))
    else None
  }

  /** `btoa` throws when a character does not fit in a byte. */
  function Btoa(binary: string): Option<string> {
    match CharCodes(binary)
    case None => None
    case Some(b) => Some(Encode(b))
  }

  /** The ASCII whitespace of the Infra Standard. */
  predicate IsBlank(c: char) {
    c == ' ' || c == '\t' || c == '\n' || c == '\U{000C}' || c == '\r'
  }

  function Compact(s: string): string {
    if s == "" then "" else if IsBlank(s[0]) then Compact(s[1..]) else [s[0]] + Compact(s[1..])
  }

  /** The trailing padding of a text, at most two characters of it. */
  function Pads(s: string): (n: nat)
    ensures n <= |s| && n <= 2
  {
    if s == "" || s[|s| - 1] != PAD then 0 else if |s| == 1 || s[|s| - 2] != PAD then 1 else 2
  }

  function Unpadded(s: string): string {
    if |s| % 4 == 0 then s[..|s| - Pads(s)] else s
  }

  predicate AllDigits(s: string) {
    forall i :: 0 <= i < |s| ==> Value(s[i]).Some?
  }

  function Padding(n: nat): string {
    if n % 4 == 2 then "==" else if n % 4 == 3 then "=" else ""
  }

  /** The forgiving-base64 decode of the Infra Standard: blanks do not count, padding may be missing. */
  function Forgiving(s: string): Option<seq<Byte>> {
    var u := Unpadded(Compact(s));
    if |u| % 4 == 1 || !AllDigits(u) then None else Decode(u + Padding(|u|))
  }

  function Atob(b64: string): Option<string> {
    match Forgiving(b64)
    case None => None
    case Some(b) => Some(FromCharCodes(b))
  }

  lemma {:induction false} PaddedDecodes(u: string)
    requires AllDigits(u) && |u| % 4 != 1
    ensures Decode(u + Padding(|u|)).Some?
  {
    hide Value;
    var s := u + Padding(|u|);
    if |u| >= 4 {
      PaddedDecodes(u[4..]);
      assert s[4..] == u[4..] + Padding(|u[4..]|);
      assert forall i :: 0 <= i < 4 ==> s[i] == u[i];
      PadIsNoDigit();
    } else {
      assert forall i :: 0 <= i < |u| ==> s[i] == u[i];
      PadIsNoDigit();
    }
  }

  lemma PadIsNoDigit()
    ensures Value(PAD) == None && forall c :: IsBlank(c) ==> Value(c) == None && c != PAD
  {
  }

  predicate IsStrict(s: string) {
    |s| % 4 == 0 && AllDigits(Unpadded(s)) && Unpadded(s) + Padding(|Unpadded(s)|) == s
  }

  lemma StrictLast(s: string)
    requires Decode(s).Some? && |s| == 4
    ensures IsStrict(s)
  {
    hide Value, Byte0, Byte1, Byte2;
    PadIsNoDigit();
    assert s == [s[0], s[1], s[2], s[3]];
    assert s[..2] + "==" == [s[0], s[1]] + "==" && s[..3] + "=" == [s[0], s[1], s[2]] + "=";
  }

  lemma StrictGroup(s: string)
    requires Decode(s).Some? && |s| != 4 && s != ""
    ensures |s| > 4 && Decode(s[4..]).Some?
    ensures Value(s[0]).Some? && Value(s[1]).Some? && Value(s[2]).Some? && Value(s[3]).Some?
  {
    hide Value, Byte0, Byte1, Byte2;
    var rest := Decode(s[4..]);
  }

  lemma DigitsConcat(a: string, b: string)
    requires AllDigits(a) && AllDigits(b)
    ensures AllDigits(a + b)
  {
    hide Value;
  }

  lemma PaddingPeriod(n: nat)
    ensures Padding(n + 4) == Padding(n)
  {
  }

  lemma UnpaddedMore(s: string)
    requires |s| > 4 && |s| % 4 == 0
    ensures Unpadded(s) == s[..4] + Unpadded(s[4..])
  {
    var rest := s[4..];
    assert |rest| % 4 == 0 && |rest| >= 4 && rest[|rest| - 1] == s[|s| - 1] && rest[|rest| - 2] == s[|s| - 2];
    assert Pads(s) == Pads(rest);
  }

  lemma StrictMore(s: string)
    requires |s| > 4 && AllDigits(s[..4]) && IsStrict(s[4..])
    ensures IsStrict(s)
  {
    hide AllDigits, Padding, Unpadded;
    var head, rest, u := s[..4], s[4..], Unpadded(s[4..]);
    assert |s| % 4 == 0;
    UnpaddedMore(s);
    DigitsConcat(head, u);
    PaddingPeriod(|u|);
    assert head + u + Padding(|u|) == head + (u + Padding(|u|)) == head + rest == s;
  }

  /** What decodes by section 4 of RFC 4648 is digits in groups of four, the last one padded. */
  lemma {:induction false} StrictShape(s: string)
    requires Decode(s).Some?
    ensures IsStrict(s)
  {
    hide Decode;
    if |s| == 4 {
      StrictLast(s);
    } else if s != "" {
      StrictGroup(s);
      assert AllDigits(s[..4]) by { hide Value; }
      StrictShape(s[4..]);
      hide IsStrict;
      StrictMore(s);
    }
  }

  lemma {:induction false} CompactKeeps(s: string)
    requires forall i :: 0 <= i < |s| ==> !IsBlank(s[i])
    ensures Compact(s) == s
  {
    if s != "" { CompactKeeps(s[1..]); }
  }

  lemma StrictHasNoBlanks(s: string)
    requires IsStrict(s)
    ensures Compact(s) == s
  {
    var u := Unpadded(s);
    hide Value, Compact;
    PadIsNoDigit();
    forall i | 0 <= i < |s| ensures !IsBlank(s[i]) {
      assert i < |u| ==> s[i] == u[i];
      assert i >= |u| ==> s[i] == Padding(|u|)[i - |u|];
    }
    CompactKeeps(s);
  }

  /** The browser decodes everything the daemon does, to the same bytes; beyond that it takes exactly the
      texts that have, blanks and trailing padding aside, only digits and not one too many. */
  lemma ForgivingExtends(s: string)
    ensures Decode(s).Some? ==> Forgiving(s) == Decode(s)
    ensures Forgiving(s).Some? <==> var u := Unpadded(Compact(s)); AllDigits(u) && |u| % 4 != 1
  {
    hide Decode, Compact, Value;
    var u := Unpadded(Compact(s));
    if AllDigits(u) && |u| % 4 != 1 { PaddedDecodes(u); }
    if Decode(s).Some? {
      StrictShape(s);
      StrictHasNoBlanks(s);
    }
  }

  lemma CodesOfChars(b: seq<Byte>)
    ensures CharCodes(FromCharCodes(b)) == Some(b)
  {
    assert CharCodes(FromCharCodes(b)).value == b;
  }

  /** The chunking leaves no trace in the result, and `btoa` never throws. */
  method BytesToBase64(bytes: seq<Byte>) returns (b64: Option<string>)
    ensures b64 == Some(Encode(bytes))
  {
    var binary := "";
    var i := 0;
    while i < |bytes|
      invariant 0 <= i
      invariant binary == FromCharCodes(bytes[..if i < |bytes| then i else |bytes|])
    {
      var end := if i + CHUNK < |bytes| then i + CHUNK else |bytes|;
      var slice := bytes[i..end];
      binary := binary + FromCharCodes(slice);
      assert bytes[..i] + slice == bytes[..end];
      i := i + CHUNK;
    }
    assert bytes[..|bytes|] == bytes;
    CodesOfChars(bytes);
    b64 := Btoa(binary);
  }

  method Base64ToBytes(b64: string) returns (out: Option<array<Byte>>)
    ensures out.Some? <==> Forgiving(b64).Some?
    ensures out.Some? ==> fresh(out.value) && out.value[..] == Forgiving(b64).value
    ensures Decode(b64).Some? ==> out.Some? && out.value[..] == Decode(b64).value
  {
    ForgivingExtends(b64);
    hide Decode, Forgiving;
    var binary := Atob(b64);
    if binary.None? { return None; }
    CodesOfChars(Forgiving(b64).value);
    var bytes := new Byte[|binary.value|];
    for i := 0 to |binary.value|
      invariant bytes[..i] == Forgiving(b64).value[..i]
    {
      bytes[i] := binary.value[i] as int;
    }
    out := Some(bytes);
  }

  /** What the client sends the client's decoder, and the daemon's, give back. */
  method RoundTrip(bytes: seq<Byte>) returns (back: Option<array<Byte>>)
    ensures back.Some? && back.value[..] == bytes
  {
    var b64 := BytesToBase64(bytes);
    DecodeEncode(bytes);
    back := Base64ToBytes(b64.value);
  }
}
