/**
 Hexadecimal and base64 as Go's standard library encodes and decodes them (RFC 4648, sections 8
 and 4).  A Go string is a sequence of bytes: each character here stands for one byte.
 */
module Codecs {
  import opened Wrappers

  type byte = x: int | 0 <= x < 256

  /** `[]byte(s)`; a character beyond 255 stands for no byte of a Go string and is cut off. */
  function Bytes(s: string): seq<byte> {
    seq(|s|, i requires 0 <= i < |s| => s[i] as int % 256)
  }

  /** The bytes of a string, for the characters that stand for one. */
  lemma BytesAreCodes(s: string, i: nat)
    requires i < |s|
    ensures |Bytes(s)| == |s|
    ensures s[i] as int < 256 ==> Bytes(s)[i] == s[i] as int
  {
  }

  // ---------------------------------------------------------------- hexadecimal

  function HexDigit(n: int): char
    requires 0 <= n < 16
  {
    if n < 10 then ('0' as int + n) as char else ('a' as int + n - 10) as char
  }

  function HexValue(c: char): Option<int> {
    if '0' <= c <= '9' then Some(c as int - '0' as int)
    else if 'a' <= c <= 'f' then Some(c as int - 'a' as int + 10)
    else if 'A' <= c <= 'F' then Some(c as int - 'A' as int + 10)
    else None
  }

  predicate AllHex(s: string) {
    forall i :: 0 <= i < |s| ==> HexValue(s[i]).Some?
  }

  function HexEncode(bs: seq<byte>): string {
    if bs == [] then "" else [HexDigit(bs[0] / 16), HexDigit(bs[0] % 16)] + HexEncode(bs[1..])
  }

  /** Either case is accepted; an odd length or any other character is an error. */
  function HexDecode(s: string): Option<seq<byte>> {
    if |s| == 0 then Some([])
    else if |s| == 1 || HexValue(s[0]).None? || HexValue(s[1]).None? then None
    else match HexDecode(s[2..])
      case None => None
      case Some(rest) => Some([HexValue(s[0]).value * 16 + HexValue(s[1]).value] + rest)
  }

  /** A character of `HexEncode`: never a capital, and never a separator of a session token. */
  predicate LowerHex(c: char) {
    '0' <= c <= '9' || 'a' <= c <= 'f'
  }

  const LOWER_HEX := "0123456789abcdef"
  const UPPER_HEX := "0123456789ABCDEF"

  /** The digits and their values, in either case. */
  lemma HexAlphabet(n: nat, c: char)
    requires n < 16
    ensures HexDigit(n) == LOWER_HEX[n]
    ensures HexValue(LOWER_HEX[n]) == Some(n) && HexValue(UPPER_HEX[n]) == Some(n)
    ensures HexValue(c).Some? ==> 0 <= HexValue(c).value < 16 && (c == LOWER_HEX[HexValue(c).value] || c == UPPER_HEX[HexValue(c).value])
  {
  }

  lemma HexDigitRoundTrip(n: int)
    requires 0 <= n < 16
    ensures HexValue(HexDigit(n)) == Some(n) && LowerHex(HexDigit(n))
  {
  }

  lemma HexCons(b: byte, s: string)
    requires HexDecode(s).Some?
    ensures HexDecode([HexDigit(b / 16), HexDigit(b % 16)] + s) == Some([b] + HexDecode(s).value)
  {
    hide HexDigit, HexValue;
    HexDigitRoundTrip(b / 16);
    HexDigitRoundTrip(b % 16);
    var whole := [HexDigit(b / 16), HexDigit(b % 16)] + s;
    assert whole[2..] == s;
  }

  lemma {:induction false} HexRoundTrip(bs: seq<byte>)
    ensures HexDecode(HexEncode(bs)) == Some(bs)
    ensures |HexEncode(bs)| == 2 * |bs|
    ensures forall i :: 0 <= i < |HexEncode(bs)| ==> LowerHex(HexEncode(bs)[i])
  {
    hide HexDigit, HexValue, LowerHex, HexDecode;
    if bs == [] {
      NothingIsHex();
    } else {
      HexRoundTrip(bs[1..]);
      HexDigitRoundTrip(bs[0] / 16);
      HexDigitRoundTrip(bs[0] % 16);
      HexCons(bs[0], HexEncode(bs[1..]));
      assert bs == [bs[0]] + bs[1..];
    }
  }

  lemma NothingIsHex()
    ensures HexDecode("") == Some([])
  {
  }

  lemma AllHexStep(s: string)
    requires |s| >= 2
    ensures AllHex(s) <==> HexValue(s[0]).Some? && HexValue(s[1]).Some? && AllHex(s[2..])
  {
    hide HexValue;
    assert forall i :: 0 <= i < |s[2..]| ==> s[2..][i] == s[i+2];
    if AllHex(s[2..]) && HexValue(s[0]).Some? && HexValue(s[1]).Some? {
      forall i | 0 <= i < |s| ensures HexValue(s[i]).Some? {
        assert i >= 2 ==> s[i] == s[2..][i-2];
      }
    }
  }

  /** What is accepted, and how long the result is. */
  lemma {:induction false} HexDecodes(s: string)
    ensures HexDecode(s).Some? <==> |s| % 2 == 0 && AllHex(s)
    ensures HexDecode(s).Some? ==> 2 * |HexDecode(s).value| == |s|
  {
    hide HexValue;
    if |s| >= 2 {
      HexDecodes(s[2..]);
      AllHexStep(s);
      assert |s| % 2 == |s[2..]| % 2;
      hide AllHex;
    }
  }

  /** Each byte of the result has the values of its two digits, whatever their case. */
  lemma {:induction false} HexDecodedAt(s: string, i: nat)
    requires HexDecode(s).Some? && i < |HexDecode(s).value|
    ensures 2 * i + 1 < |s| && HexValue(s[2*i]).Some? && HexValue(s[2*i+1]).Some?
    ensures HexDecode(s).value[i] == HexValue(s[2*i]).value * 16 + HexValue(s[2*i+1]).value
  {
    hide HexValue;
    if i > 0 {
      HexDecodedAt(s[2..], i - 1);
    }
  }

  // ---------------------------------------------------------------- base64, with padding

  function Base64Digit(n: int): char
    requires 0 <= n < 64
  {
    if n < 26 then ('A' as int + n) as char
    else if n < 52 then ('a' as int + n - 26) as char
    else if n < 62 then ('0' as int + n - 52) as char
    else if n == 62 then '+'
    else '/'
  }

  function Base64Value(c: char): Option<int> {
    if 'A' <= c <= 'Z' then Some(c as int - 'A' as int)
    else if 'a' <= c <= 'z' then Some(c as int - 'a' as int + 26)
    else if '0' <= c <= '9' then Some(c as int - '0' as int + 52)
    else if c == '+' then Some(62)
    else if c == '/' then Some(63)
    else None
  }

  /** Three bytes as four digits. */
  function Group(a: byte, b: byte, c: byte): (s: string) {
    [Base64Digit(a / 4), Base64Digit((a % 4) * 16 + b / 16), Base64Digit((b % 16) * 4 + c / 64), Base64Digit(c % 64)]
  }

  function Base64Encode(bs: seq<byte>): string {
    if bs == [] then ""
    else if |bs| == 1 then Group(bs[0], 0, 0)[..2] + "=="
    else if |bs| == 2 then Group(bs[0], bs[1], 0)[..3] + "="
    else Group(bs[0], bs[1], bs[2]) + Base64Encode(bs[3..])
  }

  /** The decoder skips line breaks wherever they stand. */
  function WithoutNewlines(s: string): string {
    if s == [] then []
    else if s[0] == '\n' || s[0] == '\r' then WithoutNewlines(s[1..])
    else [s[0]] + WithoutNewlines(s[1..])
  }

  /** Four digits, or three or two of them with padding; bits beyond the last byte are not checked. */
  function DecodeGroup(g: string): Option<seq<byte>>
    requires |g| == 4
  {
    if Base64Value(g[0]).None? || Base64Value(g[1]).None? then None
    else
      var v0, v1 := Base64Value(g[0]).value, Base64Value(g[1]).value;
      if g[2] == '=' then
        if g[3] == '=' then Some([v0 * 4 + v1 / 16]) else None
      else if Base64Value(g[2]).None? then None
      else
        var v2 := Base64Value(g[2]).value;
        if g[3] == '=' then Some([v0 * 4 + v1 / 16, (v1 % 16) * 16 + v2 / 4])
        else if Base64Value(g[3]).None? then None
        else Some([v0 * 4 + v1 / 16, (v1 % 16) * 16 + v2 / 4, (v2 % 4) * 64 + Base64Value(g[3]).value])
  }

  /** Groups of four; only the last may be padded. */
  function DecodeGroups(s: string): Option<seq<byte>> {
    if s == [] then Some([])
    else if |s| < 4 then None
    else match DecodeGroup(s[..4])
      case None => None
      case Some(bs) =>
        if |bs| < 3 && |s| > 4 then None
        else match DecodeGroups(s[4..])
          case None => None
          case Some(rest) => Some(bs + rest)
  }

  function Base64Decode(s: string): Option<seq<byte>> {
    DecodeGroups(WithoutNewlines(s))
  }

  const CAPITALS := "ABCDEFGHIJKLMNOPQRSTUVWXYZ"
  const SMALL_LETTERS := "abcdefghijklmnopqrstuvwxyz"
  const BASE64_ALPHABET := CAPITALS + SMALL_LETTERS + "0123456789+/"

  lemma Letters(n: nat)
    requires n < 26
    ensures |CAPITALS| == 26 && CAPITALS[n] == ('A' as int + n) as char
    ensures |SMALL_LETTERS| == 26 && SMALL_LETTERS[n] == ('a' as int + n) as char
  {
  }

  lemma AlphabetAt(n: nat)
    requires n < 64
    ensures |BASE64_ALPHABET| == 64 && BASE64_ALPHABET[n] == Base64Digit(n)
  {
    Letters(if n < 26 then n else 0);
    Letters(if 26 <= n < 52 then n - 26 else 0);
    hide CAPITALS, SMALL_LETTERS;
  }

  /** The digits and their values: table 1 of RFC 4648. */
  lemma Base64Alphabet(n: nat, c: char)
    requires n < 64
    ensures |BASE64_ALPHABET| == 64
    ensures Base64Digit(n) == BASE64_ALPHABET[n] && Base64Value(BASE64_ALPHABET[n]) == Some(n)
    ensures Base64Value(c).Some? ==> 0 <= Base64Value(c).value < 64 && c == BASE64_ALPHABET[Base64Value(c).value]
  {
    hide BASE64_ALPHABET;
    AlphabetAt(n);
    if Base64Value(c).Some? {
      AlphabetAt(Base64Value(c).value);
    }
  }

  lemma Base64DigitRoundTrip(n: int)
    requires 0 <= n < 64
    ensures Base64Value(Base64Digit(n)) == Some(n) && IsDigit(Base64Digit(n))
  {
  }

  predicate IsDigit(c: char) {
    c != '=' && c != '\n' && c != '\r' && c as int < 128
  }

  lemma GroupRoundTrip(a: byte, b: byte, c: byte)
    ensures var s := Group(a, b, c);
            && |s| == 4
            && (forall i :: 0 <= i < 4 ==> Base64Value(s[i]).Some? && IsDigit(s[i]))
            && Base64Value(s[0]).value * 4 + Base64Value(s[1]).value / 16 == a
            && (Base64Value(s[1]).value % 16) * 16 + Base64Value(s[2]).value / 4 == b
            && (Base64Value(s[2]).value % 4) * 64 + Base64Value(s[3]).value == c
  {
    hide Base64Value, Base64Digit, IsDigit;
    Base64DigitRoundTrip(a / 4);
    Base64DigitRoundTrip((a % 4) * 16 + b / 16);
    Base64DigitRoundTrip((b % 16) * 4 + c / 64);
    Base64DigitRoundTrip(c % 64);
  }

  /** The four digits are the 24 bits of the three bytes, most significant first. */
  lemma GroupIsBits(a: byte, b: byte, c: byte)
    ensures var s := Group(a, b, c);
            && |s| == 4
            && (forall i :: 0 <= i < 4 ==> Base64Value(s[i]).Some?)
            && ((Base64Value(s[0]).value * 64 + Base64Value(s[1]).value) * 64 + Base64Value(s[2]).value) * 64 + Base64Value(s[3]).value
               == (a * 256 + b) * 256 + c
  {
    hide Base64Value, Base64Digit;
    Base64DigitRoundTrip(a / 4);
    Base64DigitRoundTrip((a % 4) * 16 + b / 16);
    Base64DigitRoundTrip((b % 16) * 4 + c / 64);
    Base64DigitRoundTrip(c % 64);
  }

  lemma {:induction false} NoNewlines(s: string)
    requires forall i :: 0 <= i < |s| ==> s[i] != '\n' && s[i] != '\r'
    ensures WithoutNewlines(s) == s
  {
    if s != [] {
      NoNewlines(s[1..]);
      assert s == [s[0]] + s[1..];
    }
  }

  ghost predicate Base64Text(s: string) {
    forall i :: 0 <= i < |s| ==> s[i] != '\n' && s[i] != '\r' && s[i] as int < 128
  }

  lemma OneGroup(g: string)
    requires |g| == 4
    ensures DecodeGroups(g) == DecodeGroup(g)
  {
    hide DecodeGroup;
    assert g[..4] == g && g[4..] == [];
    NothingDecodes();
    if DecodeGroup(g).Some? {
      assert DecodeGroup(g).value + [] == DecodeGroup(g).value;
    }
  }

  lemma OneByte(a: byte)
    ensures DecodeGroups(Group(a, 0, 0)[..2] + "==") == Some([a])
  {
    hide Group, Base64Value, DecodeGroups;
    GroupRoundTrip(a, 0, 0);
    OneGroup(Group(a, 0, 0)[..2] + "==");
  }

  lemma TwoBytes(a: byte, b: byte)
    ensures DecodeGroups(Group(a, b, 0)[..3] + "=") == Some([a, b])
  {
    hide Group, Base64Value, DecodeGroups;
    GroupRoundTrip(a, b, 0);
    OneGroup(Group(a, b, 0)[..3] + "=");
  }

  lemma FullGroup(a: byte, b: byte, c: byte)
    ensures |Group(a, b, c)| == 4 && DecodeGroup(Group(a, b, c)) == Some([a, b, c])
  {
    hide Group, Base64Value;
    GroupRoundTrip(a, b, c);
  }

  lemma ThreeBytes(a: byte, b: byte, c: byte, s: string)
    requires DecodeGroups(s).Some?
    ensures DecodeGroups(Group(a, b, c) + s) == Some([a, b, c] + DecodeGroups(s).value)
  {
    hide Group, DecodeGroup;
    FullGroup(a, b, c);
    var whole := Group(a, b, c) + s;
    assert whole[..4] == Group(a, b, c) && whole[4..] == s;
  }

  lemma {:induction false} GroupsRoundTrip(bs: seq<byte>)
    ensures DecodeGroups(Base64Encode(bs)) == Some(bs)
    ensures |Base64Encode(bs)| == (|bs| + 2) / 3 * 4
  {
    hide Group, DecodeGroup, DecodeGroups;
    if bs == [] {
      NothingDecodes();
    } else if |bs| == 1 {
      GroupRoundTrip(bs[0], 0, 0);
      OneByte(bs[0]);
      assert bs == [bs[0]];
    } else if |bs| == 2 {
      GroupRoundTrip(bs[0], bs[1], 0);
      TwoBytes(bs[0], bs[1]);
      assert bs == [bs[0], bs[1]];
    } else {
      GroupRoundTrip(bs[0], bs[1], bs[2]);
      GroupsRoundTrip(bs[3..]);
      ThreeBytes(bs[0], bs[1], bs[2], Base64Encode(bs[3..]));
      assert bs == [bs[0], bs[1], bs[2]] + bs[3..];
    }
  }

  lemma NothingDecodes()
    ensures DecodeGroups("") == Some([])
  {
  }

  lemma {:induction false} EncodesToText(bs: seq<byte>)
    ensures Base64Text(Base64Encode(bs))
  {
    hide Group;
    if |bs| == 1 {
      GroupRoundTrip(bs[0], 0, 0);
    } else if |bs| == 2 {
      GroupRoundTrip(bs[0], bs[1], 0);
    } else if |bs| > 2 {
      GroupRoundTrip(bs[0], bs[1], bs[2]);
      EncodesToText(bs[3..]);
    }
  }

  /** Decoding undoes encoding, for all bytes. */
  lemma {:induction false} Base64RoundTrip(bs: seq<byte>)
    ensures Base64Decode(Base64Encode(bs)) == Some(bs)
    ensures Base64Text(Base64Encode(bs)) && |Base64Encode(bs)| == (|bs| + 2) / 3 * 4
  {
    GroupsRoundTrip(bs);
    EncodesToText(bs);
    NoNewlines(Base64Encode(bs));
  }

  /** Padding, which is in no hexadecimal text, is there exactly when the length is not a multiple of
      three. */
  lemma {:induction false} PaddedUnlessMultipleOfThree(bs: seq<byte>)
    ensures |bs| % 3 != 0 <==> '=' in Base64Encode(bs)
  {
    hide Group, Base64Value;
    if |bs| == 1 {
      GroupRoundTrip(bs[0], 0, 0);
      assert Base64Encode(bs)[3] == '=';
    } else if |bs| == 2 {
      GroupRoundTrip(bs[0], bs[1], 0);
      assert Base64Encode(bs)[3] == '=';
    } else if |bs| > 2 {
      GroupRoundTrip(bs[0], bs[1], bs[2]);
      PaddedUnlessMultipleOfThree(bs[3..]);
    }
  }

  // ---------------------------------------------------------------- what the base64 decoder accepts

  /** Line breaks make no difference. */
  lemma {:induction false} NewlinesAreSkipped(before: string, c: char, after: string)
    requires c == '\n' || c == '\r'
    ensures WithoutNewlines(before + [c] + after) == WithoutNewlines(before + after)
    ensures Base64Decode(before + [c] + after) == Base64Decode(before + after)
  {
    var s := before + [c] + after;
    if before == [] {
      assert s[0] == c && s[1..] == after && before + after == after;
    } else {
      NewlinesAreSkipped(before[1..], c, after);
      assert s[0] == before[0] && s[1..] == before[1..] + [c] + after;
      assert (before + after)[0] == before[0] && (before + after)[1..] == before[1..] + after;
    }
  }

  /** Groups of four digits, the last of them with `pad` signs '=' at its end. */
  predicate PaddedForm(s: string, pad: nat) {
    && pad <= 2 && pad <= |s| && |s| % 4 == 0
    && (forall i :: 0 <= i < |s| - pad ==> Base64Value(s[i]).Some?)
    && (forall i :: |s| - pad <= i < |s| ==> s[i] == '=')
  }

  lemma PaddedFormStep(s: string, pad: nat)
    requires |s| > 4
    ensures PaddedForm(s, pad) <==> PaddedForm(s[4..], pad) && PaddedForm(s[..4], 0)
  {
    hide Base64Value;
    var first, rest := s[..4], s[4..];
    assert |rest| % 4 == |s| % 4;
    assert forall i :: 0 <= i < |rest| ==> rest[i] == s[i+4];
    assert forall i :: 0 <= i < 4 ==> first[i] == s[i];
    if PaddedForm(rest, pad) && PaddedForm(first, 0) {
      forall i | 0 <= i < |s| - pad ensures Base64Value(s[i]).Some? {
        assert i >= 4 ==> s[i] == rest[i-4];
      }
      forall i | |s| - pad <= i < |s| ensures s[i] == '=' {
        assert s[i] == rest[i-4];
      }
    }
  }

  lemma PaddingIsNoDigit()
    ensures Base64Value('=').None?
  {
  }

  lemma GroupDecodes(g: string)
    requires |g| == 4
    ensures DecodeGroup(g).Some? <==> PaddedForm(g, 0) || PaddedForm(g, 1) || PaddedForm(g, 2)
    ensures forall pad: nat :: PaddedForm(g, pad) ==> DecodeGroup(g).Some? && |DecodeGroup(g).value| == 3 - pad
  {
    PaddingIsNoDigit();
    hide Base64Value;
    assert PaddedForm(g, 0) <==> forall i :: 0 <= i < 4 ==> Base64Value(g[i]).Some?;
  }

  lemma {:induction false} GroupsDecode(s: string)
    ensures DecodeGroups(s).Some? <==> PaddedForm(s, 0) || PaddedForm(s, 1) || PaddedForm(s, 2)
    ensures forall pad: nat :: PaddedForm(s, pad) ==> DecodeGroups(s).Some? && |DecodeGroups(s).value| == |s| / 4 * 3 - pad
  {
    hide DecodeGroup, PaddedForm;
    if |s| > 4 {
      GroupDecodes(s[..4]);
      GroupsDecode(s[4..]);
      forall pad: nat ensures PaddedForm(s, pad) <==> PaddedForm(s[4..], pad) && PaddedForm(s[..4], 0) {
        PaddedFormStep(s, pad);
      }
      OnePadding(s[..4]);
      assert |s| / 4 == |s[4..]| / 4 + 1;
    } else if |s| == 4 {
      OneGroup(s);
      GroupDecodes(s);
    } else {
      ShortForms(s);
      NothingDecodes();
    }
  }

  lemma OnePadding(g: string)
    requires |g| == 4
    ensures DecodeGroup(g).Some? && |DecodeGroup(g).value| == 3 ==> PaddedForm(g, 0)
  {
    hide DecodeGroup, PaddedForm;
    GroupDecodes(g);
  }

  lemma ShortForms(s: string)
    requires |s| < 4
    ensures forall pad: nat :: PaddedForm(s, pad) <==> s == "" && pad == 0
  {
  }

  /** Exactly the texts are accepted that, line breaks aside, are groups of four digits with at most two
      signs '=' at the end; each full group stands for three bytes, each '=' for one less. */
  lemma {:induction false} Base64Decodes(s: string)
    ensures var t := WithoutNewlines(s);
            && (Base64Decode(s).Some? <==> PaddedForm(t, 0) || PaddedForm(t, 1) || PaddedForm(t, 2))
            && (forall pad: nat :: PaddedForm(t, pad) ==> Base64Decode(s).Some? && |Base64Decode(s).value| == |t| / 4 * 3 - pad)
  {
    hide DecodeGroups, PaddedForm, WithoutNewlines;
    GroupsDecode(WithoutNewlines(s));
  }

  lemma GroupBits(g: string, i: nat)
    requires |g| == 4 && DecodeGroup(g).Some? && i < |DecodeGroup(g).value|
    ensures |DecodeGroup(g).value| <= 3 && Base64Value(g[i]).Some? && Base64Value(g[i+1]).Some?
    ensures var b, u, v := DecodeGroup(g).value[i], Base64Value(g[i]).value, Base64Value(g[i+1]).value;
            b == if i == 0 then u * 4 + v / 16 else if i == 1 then u % 16 * 16 + v / 4 else u % 4 * 64 + v
  {
    hide Base64Value;
  }

  /** The bits of a byte, from the two digits they come from. */
  lemma {:induction false} Base64DecodedAt(s: string, i: nat)
    requires DecodeGroups(s).Some? && i < |DecodeGroups(s).value|
    ensures var g, b := i / 3 * 4, DecodeGroups(s).value[i];
            && g + i % 3 + 1 < |s|
            && Base64Value(s[g + i % 3]).Some? && Base64Value(s[g + i % 3 + 1]).Some?
            && var u, v := Base64Value(s[g + i % 3]).value, Base64Value(s[g + i % 3 + 1]).value;
            b == if i % 3 == 0 then u * 4 + v / 16 else if i % 3 == 1 then u % 16 * 16 + v / 4 else u % 4 * 64 + v
  {
    hide Base64Value, DecodeGroup;
    var bs := DecodeGroup(s[..4]).value;
    if i < |bs| {
      GroupBits(s[..4], i);
    } else {
      GroupDecodes(s[..4]);
      if |s| == 4 {
        OneGroup(s);
      }
      Base64DecodedAt(s[4..], i - 3);
    }
  }
}
