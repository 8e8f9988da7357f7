/**
 The text codecs of source/util/util_encode.cpp: C-style escaping, and the two percent-encodings. Each encoder maps
 bytes one by one; each decoder takes one step at a time from the front.
 */
module Encode {
  import opened Bytes

  /** c_escape / c_unescape, rawurlencode / rawurldecode, urlencode / urldecode. */
  datatype Codec = CStyle | Raw | Form

  const BACKSLASH: Byte := 92
  const PERCENT: Byte := 37
  const PLUS: Byte := 43
  const SPACE: Byte := 32

  /** The value of a `char`, which is signed: the source compares it as such. */
  function Signed(c: Byte): int {
    if c < 128 then c else c - 256
  }

  /** g_hexcode. */
  function HexDigit(n: int): (c: Byte)
    requires 0 <= n < 16
    ensures IsXDigit(c) && HexValue(c) == n
  {
    if n < 10 then 48 + n else 87 + n
  }

  /** isxdigit. */
  predicate IsXDigit(c: Byte) {
    48 <= c <= 57 || 65 <= c <= 70 || 97 <= c <= 102
  }

  /** One half of getHex, and the digit arithmetic of c_unescape. */
  function HexValue(c: Byte): (n: int)
    requires IsXDigit(c)
    ensures 0 <= n < 16
  {
    if c >= 97 then c - 97 + 10 else if c >= 65 then c - 65 + 10 else c - 48
  }

  predicate IsOctal(c: Byte) {
    48 <= c <= 55
  }

  // ---------------------------------------------------------------- encoding

  /** The letter c_escape writes after the backslash, or 0. */
  function NameOf(c: Byte): Byte {
    if c == 7 then 97 else if c == 8 then 98 else if c == 12 then 102 else if c == 10 then 110
    else if c == 13 then 114 else if c == 9 then 116 else if c == 11 then 118
    else if c == 92 || c == 39 || c == 34 then c
    else 0
  }

  /** isprint(c) || (c & 0x80). */
  predicate Printable(c: Byte) {
    32 <= c <= 126 || c >= 128
  }

  /** The bytes rawurlencode leaves alone, by the source's own comparisons. */
  predicate RawKeeps(c: Byte) {
    var x := Signed(c);
    !((x < 48 && x != 45 && x != 46) || (x < 65 && x > 57) || (x > 90 && x < 97 && x != 95) || (x > 122 && x != 126))
  }

  /** The bytes urlencode leaves alone. */
  predicate FormKeeps(c: Byte) {
    var x := Signed(c);
    !((x < 48 && x != 45 && x != 46) || (x < 65 && x > 57) || (x > 90 && x < 97 && x != 95) || x > 122)
  }

  function Percent(c: Byte): seq<Byte> {
    [PERCENT, HexDigit(c / 16), HexDigit(c % 16)]
  }

  function EncodeByte(codec: Codec, c: Byte): (r: seq<Byte>)
    ensures |r| > 0
  {
    match codec
    case CStyle =>
      if NameOf(c) != 0 then [BACKSLASH, NameOf(c)]
      else if Printable(c) then [c]
      else [BACKSLASH, 120, HexDigit(c / 16), HexDigit(c % 16)]
    case Raw => if RawKeeps(c) then [c] else Percent(c)
    case Form => if c == SPACE then [PLUS] else if FormKeeps(c) then [c] else Percent(c)
  }

  function Encoded(codec: Codec, s: seq<Byte>): seq<Byte> {
    if s == [] then [] else EncodeByte(codec, s[0]) + Encoded(codec, s[1..])
  }

  // ---------------------------------------------------------------- decoding

  /** What one turn of a decoder's loop writes, and how many bytes it reads. */
  datatype Step = Step(out: seq<Byte>, used: nat)

  /** The byte of a named C escape, or the letter itself: `default: r.push_back(c)`. */
  function ByteOfName(letter: Byte): Byte {
    if letter == 97 then 7 else if letter == 98 then 8 else if letter == 102 then 12 else if letter == 110 then 10
    else if letter == 114 then 13 else if letter == 116 then 9 else if letter == 118 then 11
    else letter
  }

  /** After a backslash and a first octal digit: one, two or three digits, a third only while the value stays a byte. */
  function OctalStep(s: seq<Byte>): (r: Step)
    requires |s| >= 2 && IsOctal(s[1])
    ensures 0 < r.used <= |s|
  {
    var first := s[1] - 48;
    if |s| > 2 && IsOctal(s[2]) then
      var second := first * 8 + (s[2] - 48);
      if second <= 31 && |s| > 3 && IsOctal(s[3]) then Step([second * 8 + (s[3] - 48)], 4)
      else Step([second], 3)
    else Step([first], 2)
  }

  /** After \x: at most two hexadecimal digits; with none the two characters stay. */
  function HexStep(s: seq<Byte>): (r: Step)
    requires |s| >= 2
    ensures 0 < r.used <= |s|
  {
    if |s| > 2 && IsXDigit(s[2]) then
      if |s| > 3 && IsXDigit(s[3]) then Step([HexValue(s[2]) * 16 + HexValue(s[3])], 4)
      else Step([HexValue(s[2])], 3)
    else Step([BACKSLASH, s[1]], 2)
  }

  function PercentStep(s: seq<Byte>): (r: Step)
    requires s != []
    ensures 0 < r.used <= |s|
  {
    if s[0] == PERCENT && |s| - 1 >= 2 && IsXDigit(s[1]) && IsXDigit(s[2]) then
      Step([HexValue(s[1]) * 16 + HexValue(s[2])], 3)
    else Step([s[0]], 1)
  }

  function DecodeStep(codec: Codec, s: seq<Byte>): (r: Step)
    requires s != []
    ensures 0 < r.used <= |s|
  {
    match codec
    case CStyle =>
      if s[0] != BACKSLASH || |s| == 1 then Step([s[0]], 1)
      else if IsOctal(s[1]) then OctalStep(s)
      else if s[1] == 120 then HexStep(s)
      else Step([ByteOfName(s[1])], 2)
    case Raw => PercentStep(s)
    case Form => if s[0] == PLUS then Step([SPACE], 1) else PercentStep(s)
  }

  function Decoded(codec: Codec, s: seq<Byte>): seq<Byte>
    decreases |s|
  {
    if s == [] then []
    else
      var step := DecodeStep(codec, s);
      step.out + Decoded(codec, s[step.used..])
  }

  // -------------------------------------------------------------- round trip

  /** The decoder reads back exactly one encoded byte, whatever follows it, literal hex digits included. */
  lemma StepInverts(codec: Codec, c: Byte, more: seq<Byte>)
    ensures DecodeStep(codec, EncodeByte(codec, c) + more) == Step([c], |EncodeByte(codec, c)|)
  {
    var e := EncodeByte(codec, c);
    assert (e + more)[..|e|] == e;
    assert c / 16 * 16 + c % 16 == c;
  }

  /** Decoding an encoded text gives the text back, for every byte string and all three codecs. */
  lemma {:induction false} RoundTrip(codec: Codec, s: seq<Byte>)
    ensures Decoded(codec, Encoded(codec, s)) == s
  {
    if s != [] {
      var e, rest := EncodeByte(codec, s[0]), Encoded(codec, s[1..]);
      StepInverts(codec, s[0], rest);
      assert (e + rest)[|e|..] == rest;
      RoundTrip(codec, s[1..]);
    }
  }

  /** The decoders also read what the encoders never write: any byte as three octal digits... */
  lemma OctalInverts(c: Byte, more: seq<Byte>)
    ensures DecodeStep(CStyle, [BACKSLASH, 48 + c / 64, 48 + c / 8 % 8, 48 + c % 8] + more) == Step([c], 4)
  {
    assert c / 8 == c / 64 * 8 + c / 8 % 8;
    assert c == c / 8 * 8 + c % 8;
  }

  /** ... and upper-case hexadecimal digits, which section 2.1 of RFC 3986 makes equivalent. */
  lemma UpperHexInverts(codec: Codec, c: Byte, more: seq<Byte>)
    requires codec == Raw || codec == Form
    ensures DecodeStep(codec, [PERCENT, UpperHexDigit(c / 16), UpperHexDigit(c % 16)] + more) == Step([c], 3)
  {
  }

  function UpperHexDigit(n: int): Byte
    requires 0 <= n < 16
  {
    if n < 10 then 48 + n else 55 + n
  }

  // ---------------------------------------------------------------- alphabet

  /** The unreserved characters of section 2.3 of RFC 3986: letters, digits, '-', '.', '_' and '~'. */
  predicate Unreserved(c: Byte) {
    65 <= c <= 90 || 97 <= c <= 122 || 48 <= c <= 57 || c == 45 || c == 46 || c == 95 || c == 126
  }

  /** rawurlencode leaves exactly the unreserved characters alone; urlencode all of them but '~'. */
  lemma KeepsExactlyUnreserved(c: Byte)
    ensures RawKeeps(c) <==> Unreserved(c)
    ensures FormKeeps(c) <==> Unreserved(c) && c != 126
  {
  }

  // ------------------------------------------------------------ other input and output

  /** The named escapes of C, by the byte they stand for. */
  const C_NAMES: map<Byte, Byte> :=
    map[7 := 97, 8 := 98, 9 := 116, 10 := 110, 11 := 118, 12 := 102, 13 := 114, 34 := 34, 39 := 39, 92 := 92]

  /** c_escape writes the named escapes of C, printable bytes as they are and all others as two hexadecimal digits. */
  lemma EscapesAreC(c: Byte, more: seq<Byte>)
    ensures var r := EncodeByte(CStyle, c);
            && (c in C_NAMES ==> r == [92, C_NAMES[c]])
            && (c !in C_NAMES && (32 <= c <= 126 || c >= 128) ==> r == [c])
            && (c !in C_NAMES && !(32 <= c <= 126 || c >= 128) ==>
                  |r| == 4 && r[..2] == [92, 120] && IsXDigit(r[2]) && IsXDigit(r[3])
                  && HexValue(r[2]) * 16 + HexValue(r[3]) == c)
    ensures c in C_NAMES ==> DecodeStep(CStyle, [92, C_NAMES[c]] + more) == Step([c], 2)
  {
  }

  /** What c_unescape does with a backslash that begins no escape. */
  lemma OddEscapes(letter: Byte, more: seq<Byte>)
    requires letter != 120 && !(48 <= letter <= 55) && letter !in C_NAMES.Values
    ensures DecodeStep(CStyle, [92, letter] + more) == Step([letter], 2)
    ensures more == [] || !IsXDigit(more[0]) ==> DecodeStep(CStyle, [92, 120] + more) == Step([92, 120], 2)
    ensures DecodeStep(CStyle, [92]) == Step([92], 1)
  {
    assert C_NAMES[7] == 97 && C_NAMES[8] == 98 && C_NAMES[9] == 116 && C_NAMES[10] == 110;
    assert C_NAMES[11] == 118 && C_NAMES[12] == 102 && C_NAMES[13] == 114;
  }

  /** The digits the encoders write, in order of their value. */
  const HEX_CODE: seq<Byte> := [48, 49, 50, 51, 52, 53, 54, 55, 56, 57, 97, 98, 99, 100, 101, 102]

  lemma TripletsAreLowerCase(c: Byte)
    ensures Percent(c) == [37, HEX_CODE[c / 16], HEX_CODE[c % 16]]
  {
  }

  /** The value of a run of octal digits. */
  function OctalValue(digits: seq<Byte>): int {
    if digits == [] then 0 else OctalValue(digits[..|digits| - 1]) * 8 + (digits[|digits| - 1] as int - 48)
  }

  /** c_unescape reads as many octal digits, up to three, as keep the value in a byte, and writes that byte. */
  lemma OctalMeans(s: seq<Byte>)
    requires |s| >= 2 && s[0] == BACKSLASH && IsOctal(s[1])
    ensures var r := DecodeStep(CStyle, s);
            && 2 <= r.used <= 4 && r.used <= |s|
            && (forall i :: 1 <= i < r.used ==> IsOctal(s[i]))
            && |r.out| == 1 && r.out[0] == OctalValue(s[1..r.used])
            && (r.used == 4 || r.used == |s| || !IsOctal(s[r.used]) || OctalValue(s[1..r.used + 1]) > 255)
  {
    assert OctalValue([]) == 0;
    assert s[1..2][..0] == [];
    assert OctalValue(s[1..2]) == s[1] as int - 48;
    if |s| > 2 {
      assert s[1..3][..1] == s[1..2];
    }
    if |s| > 3 {
      assert s[1..4][..2] == s[1..3];
    }
  }

  /** It reads one or two hexadecimal digits after \x, and writes the byte they stand for. */
  lemma HexMeans(s: seq<Byte>)
    requires |s| >= 3 && s[0] == BACKSLASH && s[1] == 120 && IsXDigit(s[2])
    ensures DecodeStep(CStyle, s) == if |s| > 3 && IsXDigit(s[3]) then Step([HexValue(s[2]) * 16 + HexValue(s[3])], 4)
                                     else Step([HexValue(s[2])], 3)
  {
  }

  /** A percent sign with two hexadecimal digits behind it. */
  predicate TripletAt(s: seq<Byte>, i: nat) {
    i + 2 < |s| && s[i] == PERCENT && IsXDigit(s[i + 1]) && IsXDigit(s[i + 2])
  }

  lemma {:induction false} DecodedShrinks(s: seq<Byte>)
    ensures |Decoded(Raw, s)| <= |s|
    decreases |s|
  {
    if s != [] {
      DecodedShrinks(s[DecodeStep(Raw, s).used..]);
    }
  }

  /** rawurldecode leaves a text alone if and only if it holds no complete triplet: a lone percent sign stays. */
  lemma {:induction false} DecodedUnchangedIff(s: seq<Byte>)
    ensures Decoded(Raw, s) == s <==> forall i: nat :: !TripletAt(s, i)
    decreases |s|
  {
    if s != [] {
      if TripletAt(s, 0) {
        DecodedShrinks(s[3..]);
      } else {
        var rest := s[1..];
        DecodedUnchangedIff(rest);
        assert s == [s[0]] + rest && Decoded(Raw, s) == [s[0]] + Decoded(Raw, rest);
        assert Decoded(Raw, s)[1..] == Decoded(Raw, rest);
        assert forall i: nat :: TripletAt(rest, i) <==> TripletAt(s, i + 1);
        assert (forall i: nat :: !TripletAt(s, i)) ==> forall i: nat :: !TripletAt(rest, i);
        if forall i: nat :: !TripletAt(rest, i) {
          forall i: nat ensures !TripletAt(s, i) {
            assert i > 0 ==> !TripletAt(rest, i - 1);
          }
        }
      }
    }
  }

  function PlusToSpace(s: seq<Byte>): (r: seq<Byte>)
    ensures |r| == |s| && forall i :: 0 <= i < |s| ==> r[i] == if s[i] == PLUS then SPACE else s[i]
  {
    seq(|s|, i requires 0 <= i < |s| => if s[i] == PLUS then SPACE else s[i])
  }

  lemma FormStep(s: seq<Byte>)
    requires s != []
    ensures DecodeStep(Form, s) == DecodeStep(Raw, PlusToSpace(s))
  {
  }

  /** urldecode is rawurldecode after every plus sign has become a space. */
  lemma {:induction false} FormIsRawWithSpaces(s: seq<Byte>)
    ensures Decoded(Form, s) == Decoded(Raw, PlusToSpace(s))
    decreases |s|
  {
    if s != [] {
      var used := DecodeStep(Form, s).used;
      FormStep(s);
      FormIsRawWithSpaces(s[used..]);
      assert PlusToSpace(s)[used..] == PlusToSpace(s[used..]);
    }
  }

  /** rawurlencode writes nothing but unreserved characters and '%', so never a separator. */
  lemma {:induction false} RawAlphabet(s: seq<Byte>, i: nat)
    requires i < |Encoded(Raw, s)|
    ensures Unreserved(Encoded(Raw, s)[i]) || Encoded(Raw, s)[i] == PERCENT
  {
    if s != [] {
      var e := EncodeByte(Raw, s[0]);
      KeepsExactlyUnreserved(s[0]);
      if i >= |e| {
        RawAlphabet(s[1..], i - |e|);
      }
    }
  }

  // --------------------------------------------------------------- the loops

  /** The encoders' loops. */
  method EncodeAll(codec: Codec, s: seq<Byte>) returns (r: seq<Byte>)
    ensures r == Encoded(codec, s) && Decoded(codec, r) == s
  {
    r := [];
    var i := 0;
    while i < |s|
      invariant 0 <= i <= |s|
      invariant r + Encoded(codec, s[i..]) == Encoded(codec, s)
    {
      assert s[i..][1..] == s[i + 1..];
      ConcatAssociates(r, EncodeByte(codec, s[i]), Encoded(codec, s[i + 1..]));
      r := r + EncodeByte(codec, s[i]);
      i := i + 1;
    }
    RoundTrip(codec, s);
  }

  lemma DecodedNext(codec: Codec, s: seq<Byte>, i: nat, step: Step, r: seq<Byte>)
    requires i < |s| && step == DecodeStep(codec, s[i..])
    ensures r + Decoded(codec, s[i..]) == (r + step.out) + Decoded(codec, s[i + step.used..])
  {
    assert s[i..][step.used..] == s[i + step.used..];
    ConcatAssociates(r, step.out, Decoded(codec, s[i + step.used..]));
  }

  /** The decoders' loops. */
  method DecodeAll(codec: Codec, s: seq<Byte>) returns (r: seq<Byte>)
    ensures r == Decoded(codec, s)
  {
    r := [];
    var i := 0;
    while i < |s|
      invariant 0 <= i <= |s|
      invariant r + Decoded(codec, s[i..]) == Decoded(codec, s)
    {
      var step := DecodeStep(codec, s[i..]);
      DecodedNext(codec, s, i, step, r);
      r := r + step.out;
      i := i + step.used;
    }
  }
}
