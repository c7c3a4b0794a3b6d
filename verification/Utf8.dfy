/**
 `to_byte_spans`: code-point offsets become UTF-8 byte offsets at the contract boundary.

 The encoding is that of section 3 of RFC 3629, together with its inverse, so that a byte
 span can be said to select exactly the substring the finding was about.
 */
module Utf8 {
  import opened Wrappers
  import opened Spans

  type Byte = b: int | 0 <= b < 256

  predicate IsScalar(cp: int) {
    0 <= cp < 0xD800 || 0xE000 <= cp < 0x110000
  }

  predicate IsTail(b: Byte) { 0x80 <= b < 0xC0 }

  function EncodeChar(c: char): (bs: seq<Byte>)
    ensures 1 <= |bs| <= 4
  {
    var cp := c as int;
    if cp < 0x80 then [cp]
    else if cp < 0x800 then [0xC0 + cp / 64, 0x80 + cp % 64]
    else if cp < 0x10000 then [0xE0 + cp / 4096, 0x80 + cp / 64 % 64, 0x80 + cp % 64]
    else [0xF0 + cp / 262144, 0x80 + cp / 4096 % 64, 0x80 + cp / 64 % 64, 0x80 + cp % 64]
  }

  function Encode(s: string): seq<Byte> {
    if s == [] then [] else EncodeChar(s[0]) + Encode(s[1..])
  }

  /** The code point a byte sequence of length n starts with, if it is the shortest form of
      a scalar value. */
  function CodePoint(bs: seq<Byte>, n: nat): Option<int>
    requires 1 <= n <= |bs|
  {
    if n == 1 then
      if bs[0] < 0x80 then Some(bs[0]) else None
    else if n == 2 then
      var cp := (bs[0] as int - 0xC0) * 64 + (bs[1] as int - 0x80);
      if 0xC0 <= bs[0] < 0xE0 && IsTail(bs[1]) && cp >= 0x80 then Some(cp) else None
    else if n == 3 then
      var cp := (bs[0] as int - 0xE0) * 4096 + (bs[1] as int - 0x80) * 64 + (bs[2] as int - 0x80);
      if 0xE0 <= bs[0] < 0xF0 && IsTail(bs[1]) && IsTail(bs[2]) && cp >= 0x800 && IsScalar(cp) then Some(cp) else None
    else if n == 4 then
      var cp := (bs[0] as int - 0xF0) * 262144 + (bs[1] as int - 0x80) * 4096
                + (bs[2] as int - 0x80) * 64 + (bs[3] as int - 0x80);
      if 0xF0 <= bs[0] < 0xF8 && IsTail(bs[1]) && IsTail(bs[2]) && IsTail(bs[3]) && cp >= 0x10000 && IsScalar(cp)
      then Some(cp) else None
    else None
  }

  /** How long the sequence starting with `b` claims to be. */
  function Length(b: Byte): nat {
    if b < 0x80 then 1 else if b < 0xE0 then 2 else if b < 0xF0 then 3 else 4
  }

  function Decode(bs: seq<Byte>): Option<string> {
    if bs == [] then Some([])
    else
      var n := Length(bs[0]);
      if n > |bs| then None
      else
        match CodePoint(bs, n)
        case None => None
        case Some(cp) =>
          if !IsScalar(cp) then None
          else
            match Decode(bs[n..])
            case None => None
            case Some(s) => Some([cp as char] + s)
  }

  // ----- Encoding and decoding undo each other -----

  lemma CharRoundTrip(c: char, rest: seq<Byte>)
    ensures var bs := EncodeChar(c) + rest;
            Length(bs[0]) == |EncodeChar(c)| && CodePoint(bs, |EncodeChar(c)|) == Some(c as int)
  {
    hide *;
    EncodedDecodes(c);
    CodePointPrefix(EncodeChar(c), rest);
  }

  /** Only the sequence itself matters, not what follows. */
  lemma CodePointPrefix(bs: seq<Byte>, rest: seq<Byte>)
    requires 1 <= |bs| <= 4
    ensures CodePoint(bs + rest, |bs|) == CodePoint(bs, |bs|)
  {
    hide IsScalar, IsTail;
  }

  lemma EncodedDecodes(c: char)
    ensures Length(EncodeChar(c)[0]) == |EncodeChar(c)|
    ensures CodePoint(EncodeChar(c), |EncodeChar(c)|) == Some(c as int)
  {
    var cp := c as int;
    if cp < 0x80 {
    } else if cp < 0x800 {
      EncodedTwo(c);
    } else if cp < 0x10000 {
      EncodedThree(c);
    } else {
      EncodedFour(c);
    }
    hide CodePoint, IsTail, IsScalar;
  }

  lemma EncodedTwo(c: char)
    requires 0x80 <= c as int < 0x800
    ensures |EncodeChar(c)| == 2 && CodePoint(EncodeChar(c), 2) == Some(c as int)
  {
  }

  lemma EncodedThree(c: char)
    requires 0x800 <= c as int < 0x10000
    ensures |EncodeChar(c)| == 3 && CodePoint(EncodeChar(c), 3) == Some(c as int)
  {
    var cp := c as int;
    assert cp / 64 == cp / 4096 * 64 + cp / 64 % 64;
  }

  lemma EncodedFour(c: char)
    requires 0x10000 <= c as int
    ensures |EncodeChar(c)| == 4 && CodePoint(EncodeChar(c), 4) == Some(c as int)
  {
    var cp := c as int;
    assert cp / 64 == cp / 4096 * 64 + cp / 64 % 64;
    assert cp / 4096 == cp / 262144 * 64 + cp / 4096 % 64;
  }

  lemma {:induction false} DecodeEncode(s: string)
    ensures Decode(Encode(s)) == Some(s)
  {
    if s != [] {
      hide EncodeChar, CodePoint;
      DecodeEncode(s[1..]);
      CharRoundTrip(s[0], Encode(s[1..]));
      var bs := Encode(s);
      assert bs[|EncodeChar(s[0])|..] == Encode(s[1..]);
      assert s == [s[0]] + s[1..];
    }
  }

  /** Base-64 digits are recovered by division. */
  lemma Digits(high: nat, low: nat)
    requires low < 64
    ensures (high * 64 + low) / 64 == high && (high * 64 + low) % 64 == low
  {
  }

  lemma EncodeThree(cp: int, a: nat, b: nat, c: nat)
    requires a < 16 && b < 64 && c < 64 && cp == (a * 64 + b) * 64 + c && 0x800 <= cp && IsScalar(cp)
    ensures EncodeChar(cp as char) == [0xE0 + a, 0x80 + b, 0x80 + c]
  {
    Digits(a * 64 + b, c);
    Digits(a, b);
    assert cp / 4096 == cp / 64 / 64;
  }

  lemma EncodeFour(cp: int, a: nat, b: nat, c: nat, d: nat)
    requires a < 8 && b < 64 && c < 64 && d < 64
    requires cp == ((a * 64 + b) * 64 + c) * 64 + d && 0x10000 <= cp && IsScalar(cp)
    ensures EncodeChar(cp as char) == [0xF0 + a, 0x80 + b, 0x80 + c, 0x80 + d]
  {
    Digits((a * 64 + b) * 64 + c, d);
    Digits(a * 64 + b, c);
    Digits(a, b);
    assert cp / 4096 == cp / 64 / 64 && cp / 262144 == cp / 64 / 64 / 64;
  }

  lemma CodePointEncodes(bs: seq<Byte>, n: nat)
    requires 1 <= n <= |bs| && CodePoint(bs, n).Some?
    ensures var cp := CodePoint(bs, n).value;
            IsScalar(cp) && EncodeChar(cp as char) == bs[..n]
  {
    var cp := CodePoint(bs, n).value;
    if n == 3 {
      hide EncodeChar;
      EncodeThree(cp, bs[0] as int - 0xE0, bs[1] as int - 0x80, bs[2] as int - 0x80);
    } else if n == 4 {
      hide EncodeChar;
      EncodeFour(cp, bs[0] as int - 0xF0, bs[1] as int - 0x80, bs[2] as int - 0x80, bs[3] as int - 0x80);
    }
  }

  lemma DecodeUnfolds(bs: seq<Byte>)
    requires bs != [] && Decode(bs).Some?
    ensures var n := Length(bs[0]);
            && 1 <= n <= |bs| && CodePoint(bs, n).Some? && IsScalar(CodePoint(bs, n).value)
            && Decode(bs[n..]).Some?
            && Decode(bs).value == [CodePoint(bs, n).value as char] + Decode(bs[n..]).value
  {
    hide CodePoint, EncodeChar, IsScalar;
  }

  lemma EncodeCons(c: char, rest: string)
    ensures Encode([c] + rest) == EncodeChar(c) + Encode(rest)
  {
    hide EncodeChar;
    assert ([c] + rest)[1..] == rest;
  }

  lemma NothingDecoded()
    ensures Decode([]) == Some([]) && Encode([]) == []
  {
  }

  /** Decoding accepts nothing but encodings. */
  lemma {:induction false} EncodeDecode(bs: seq<Byte>)
    requires Decode(bs).Some?
    ensures Encode(Decode(bs).value) == bs
    decreases |bs|
  {
    hide Decode, Encode, EncodeChar, CodePoint, Length, IsTail;
    if bs == [] {
      NothingDecoded();
    } else {
      DecodeUnfolds(bs);
      var n := Length(bs[0]);
      CodePointEncodes(bs, n);
      EncodeDecode(bs[n..]);
      EncodeCons(CodePoint(bs, n).value as char, Decode(bs[n..]).value);
      assert bs == bs[..n] + bs[n..];
    }
  }

  // ----- Offsets -----

  /** Python's bound of a slice index: negative counts from the end, and both ends clip. */
  function Clip(n: int, length: nat): nat {
    if n < 0 then (if length + n < 0 then 0 else length + n)
    else if n > length then length else n
  }

  function PySlice<T>(s: seq<T>, a: int, b: int): seq<T> {
    var lo, hi := Clip(a, |s|), Clip(b, |s|);
    if lo <= hi then s[lo..hi] else []
  }

  /** Offsets within the sequence select what lies between them, negative ones count from its end, and
      those beyond either end stand for that end. */
  lemma SliceLaws<T>(s: seq<T>, a: int, b: int)
    ensures 0 <= a <= b <= |s| ==> PySlice(s, a, b) == s[a..b]
    ensures 0 <= b < a <= |s| ==> PySlice(s, a, b) == []
    ensures -|s| <= a < 0 ==> PySlice(s, a, b) == PySlice(s, |s| + a, b)
    ensures -|s| <= b < 0 ==> PySlice(s, a, b) == PySlice(s, a, |s| + b)
    ensures a < -|s| ==> PySlice(s, a, b) == PySlice(s, 0, b)
    ensures b < -|s| ==> PySlice(s, a, b) == []
    ensures a > |s| ==> PySlice(s, a, b) == []
    ensures b > |s| ==> PySlice(s, a, b) == PySlice(s, a, |s|)
  {
  }

  /** How many bytes encode what comes before an offset. */
  function ByteOffset(text: string, n: int): nat {
    |Encode(text[..Clip(n, |text|)])|
  }

  lemma {:induction false} EncodeConcat(s: string, t: string)
    ensures Encode(s + t) == Encode(s) + Encode(t)
  {
    hide EncodeChar;
    if s == [] {
      assert s + t == t;
    } else {
      EncodeConcat(s[1..], t);
      assert (s + t)[1..] == s[1..] + t;
    }
  }

  /** Byte offsets grow with character offsets, by at least one byte a character, so order,
      disjointness and distinctness of spans all carry over. */
  lemma OffsetsMonotone(text: string, a: int, b: int)
    ensures Clip(a, |text|) <= Clip(b, |text|) <==> ByteOffset(text, a) <= ByteOffset(text, b)
    ensures Clip(a, |text|) == Clip(b, |text|) <==> ByteOffset(text, a) == ByteOffset(text, b)
  {
    var i, j := Clip(a, |text|), Clip(b, |text|);
    if i <= j {
      OffsetGap(text, i, j);
    } else {
      OffsetGap(text, j, i);
    }
  }

  lemma OffsetGap(text: string, i: nat, j: nat)
    requires i <= j <= |text|
    ensures |Encode(text[..j])| == |Encode(text[..i])| + |Encode(text[i..j])|
    ensures |Encode(text[i..j])| >= j - i
  {
    assert text[..j] == text[..i] + text[i..j];
    EncodeConcat(text[..i], text[i..j]);
    EncodeLength(text[i..j]);
  }

  lemma {:induction false} EncodeLength(s: string)
    ensures |Encode(s)| >= |s|
  {
    if s != [] {
      EncodeLength(s[1..]);
    }
  }

  /** The converted span selects, in the encoded text, exactly the encoding of what the
      original selected, whatever the offsets: reading it back gives the same substring. */
  lemma ByteSpanSelectsSubstring(text: string, a: int, b: int)
    ensures var bytes := PySlice(Encode(text), ByteOffset(text, a), ByteOffset(text, b));
            bytes == Encode(PySlice(text, a, b)) && Decode(bytes) == Some(PySlice(text, a, b))
  {
    var i, j := Clip(a, |text|), Clip(b, |text|);
    OffsetsMonotone(text, a, b);
    hide Encode, Decode;
    EncodedParts(text, i, if i <= j then j else i);
    EncodedParts(text, 0, j);
    DecodeEncode(PySlice(text, a, b));
  }

  /** Where the encoding of a slice lies in the encoding of the text. */
  lemma EncodedParts(text: string, i: nat, j: nat)
    requires i <= j <= |text|
    ensures var m, n := |Encode(text[..i])|, |Encode(text[..j])|;
            m <= n <= |Encode(text)| && Encode(text)[m..n] == Encode(text[i..j])
  {
    hide Encode;
    var front, mid, back := text[..i], text[i..j], text[j..];
    EncodeConcat(front, mid);
    EncodeConcat(front + mid, back);
    assert text[..j] == front + mid && text == front + mid + back;
  }

  // ----- The conversion of Python's texts -----

  /** A Python text may hold any code point, surrogates included, which have no encoding. */
  type PyChar = cp: int | 0 <= cp < 0x110000

  predicate Encodable(text: seq<PyChar>) {
    forall i :: 0 <= i < |text| ==> IsScalar(text[i])
  }

  function AsString(text: seq<PyChar>): (s: string)
    requires Encodable(text)
    ensures |s| == |text| && forall i :: 0 <= i < |text| ==> s[i] as int == text[i]
  {
    seq(|text|, i requires 0 <= i < |text| => text[i] as char)
  }

  datatype EncodeError = UnicodeEncodeError

  /** `len(text[:n].encode("utf-8"))`. */
  function EncodedLength(text: seq<PyChar>, n: int): Result<nat, EncodeError> {
    var prefix := text[..Clip(n, |text|)];
    if Encodable(prefix) then Ok(|Encode(AsString(prefix))|) else Err(UnicodeEncodeError)
  }

  /** The place of the first surrogate, the length if there is none. */
  function FirstSurrogate(text: seq<PyChar>): (k: nat)
    ensures k <= |text| && (k < |text| ==> !IsScalar(text[k]))
    ensures forall i :: 0 <= i < k ==> IsScalar(text[i])
  {
    if text == [] || !IsScalar(text[0]) then 0 else 1 + FirstSurrogate(text[1..])
  }

  /** Both ends of a span can be converted. */
  predicate Convertible(f: Finding, text: seq<PyChar>) {
    f.Spanned() ==> EncodedLength(text, Lo(f)).Ok? && EncodedLength(text, Hi(f)).Ok?
  }

  /** g is f with both ends counted in bytes; a finding about the whole unit stays as it is. */
  predicate Converted(f: Finding, text: seq<PyChar>, g: Finding) {
    if f.Spanned() then
      && g.category == f.category && g.score == f.score && g.rawLabel == f.rawLabel && g.Spanned()
      && EncodedLength(text, f.start.value) == Ok(g.start.value)
      && EncodedLength(text, f.end.value) == Ok(g.end.value)
    else g == f
  }

  method ToByteSpans(findings: seq<Finding>, text: seq<PyChar>) returns (r: Result<seq<Finding>, EncodeError>)
    ensures r.Ok? <==> forall f :: f in findings ==> Convertible(f, text)
    ensures r.Ok? ==> |r.value| == |findings| &&
                      forall i :: 0 <= i < |findings| ==> Converted(findings[i], text, r.value[i])
  {
    hide EncodedLength;
    var out: seq<Finding> := [];
    for i := 0 to |findings|
      invariant |out| == i
      invariant forall j :: 0 <= j < i ==> Convertible(findings[j], text) && Converted(findings[j], text, out[j])
    {
      var f := findings[i];
      if f.start.None? || f.end.None? {
        out := out + [f];
        continue;
      }
      assert f in findings;
      var startB := EncodedLength(text, f.start.value);
      if startB.Err? {
        return Err(startB.error);
      }
      var endB := EncodedLength(text, f.end.value);
      if endB.Err? {
        return Err(endB.error);
      }
      out := out + [Finding(f.category, f.score, f.rawLabel, Some(startB.value), Some(endB.value))];
    }
    return Ok(out);
  }

  /** An offset can be converted exactly if it is at or before the first surrogate, and then its byte
      offset is that in the part of the text without surrogates. */
  lemma ConvertsUpToSurrogate(text: seq<PyChar>, n: int)
    ensures EncodedLength(text, n).Ok? <==> Clip(n, |text|) <= FirstSurrogate(text)
    ensures Clip(n, |text|) <= FirstSurrogate(text) ==>
              && Encodable(text[..FirstSurrogate(text)])
              && EncodedLength(text, n) == Ok(ByteOffset(AsString(text[..FirstSurrogate(text)]), Clip(n, |text|)))
  {
    var k, c := FirstSurrogate(text), Clip(n, |text|);
    hide FirstSurrogate, Encode, Clip, IsScalar, AsString;
    EncodableUpTo(text, c);
    EncodableUpTo(text, k);
    if c <= k {
      PrefixAsString(text, k, c);
      OffsetWithin(AsString(text[..k]), c);
    }
    hide Encodable;
  }

  lemma EncodableUpTo(text: seq<PyChar>, c: nat)
    requires c <= |text|
    ensures Encodable(text[..c]) <==> c <= FirstSurrogate(text)
  {
    hide IsScalar;
    var k := FirstSurrogate(text);
    if c > k {
      assert text[..c][k] == text[k];
    }
  }

  lemma PrefixAsString(text: seq<PyChar>, k: nat, c: nat)
    requires c <= k <= |text| && Encodable(text[..k]) && Encodable(text[..c])
    ensures AsString(text[..k])[..c] == AsString(text[..c])
  {
    hide IsScalar;
    assert text[..k][..c] == text[..c];
  }

  lemma OffsetWithin(text: string, c: nat)
    requires c <= |text|
    ensures ByteOffset(text, c) == |Encode(text[..c])|
  {
    hide Encode;
  }

  /** A converted finding points, in the encoded text, at the encoding of what it pointed at in the text. */
  lemma ConvertedSelects(f: Finding, text: seq<PyChar>, g: Finding)
    requires Encodable(text) && f.Spanned() && Converted(f, text, g)
    ensures g.Spanned()
    ensures PySlice(Encode(AsString(text)), Lo(g), Hi(g)) == Encode(PySlice(AsString(text), Lo(f), Hi(f)))
  {
    hide Encode, Decode, PySlice, Encodable, EncodedLength, AsString, FirstSurrogate;
    AllEncodable(text);
    WholeText(text);
    OffsetClips(AsString(text), Lo(f));
    OffsetClips(AsString(text), Hi(f));
    ConvertsUpToSurrogate(text, Lo(f));
    ConvertsUpToSurrogate(text, Hi(f));
    ByteSpanSelectsSubstring(AsString(text), Lo(f), Hi(f));
  }

  lemma AllEncodable(text: seq<PyChar>)
    requires Encodable(text)
    ensures FirstSurrogate(text) == |text| == |AsString(text)|
  {
  }

  lemma WholeText(text: seq<PyChar>)
    ensures text[..|text|] == text
  {
  }

  lemma OffsetClips(text: string, n: int)
    ensures 0 <= Clip(n, |text|) <= |text| && ByteOffset(text, Clip(n, |text|)) == ByteOffset(text, n)
  {
    hide Encode;
  }
}
