/**
 What the reading direction of release directory names accepts: every name, not
 only those that a release was ever given.
 */
module DirnameDecoding {
  import opened Wrappers
  import opened ReleaseNames

  // ---------------------------------------------------------------------
  // What a name holds
  // ---------------------------------------------------------------------

  /** The digits of the characters that have one, in order. */
  function DigitsIn(s: string): (digits: seq<nat>)
    ensures forall i :: 0 <= i < |digits| ==> digits[i] < 64
  {
    if s == "" then []
    else
      var front := DigitsIn(s[..|s| - 1]);
      match UrlDigitOf(s[|s| - 1])
      case None => front
      case Some(d) => front + [d]
  }

  /** Digits in the last, open group. */
  function Quad(s: string): nat {
    |DigitsIn(s)| % 4
  }

  /** Padding characters after the last digit. */
  function PadsAtEnd(s: string): nat {
    if s == "" then 0
    else
      var front, ch := s[..|s| - 1], s[|s| - 1];
      if ch == '=' then 1 + PadsAtEnd(front)
      else if UrlDigitOf(ch).Some? then 0
      else PadsAtEnd(front)
  }

  /** The padding character that completes an open group; decoding ends there. */
  predicate StopsAt(s: string, i: int) {
    0 <= i < |s| && s[i] == '=' && Quad(s[..i]) >= 2 && Quad(s[..i]) + PadsAtEnd(s[..i + 1]) >= 4
  }

  function FirstStop(s: string, from: nat): (i: nat)
    requires from <= |s|
    ensures from <= i <= |s|
    ensures i < |s| ==> StopsAt(s, i)
    ensures forall j :: from <= j < i ==> !StopsAt(s, j)
    decreases |s| - from
  {
    if from == |s| || StopsAt(s, from) then from else FirstStop(s, from + 1)
  }

  /** The part of a name that decoding looks at. */
  function Significant(s: string): string {
    s[..FirstStop(s, 0)]
  }

  /** With `extra` padding behind it, the name ends where a group ends. */
  predicate Complete(s: string, extra: nat) {
    || FirstStop(s, 0) < |s|
    || Quad(s) == 0
    || (Quad(s) >= 2 && extra > 0 && Quad(s) + PadsAtEnd(s) + extra >= 4)
  }

  /** The byte that the digit in place 1, 2 or 3 of a group completes. */
  function NewByte(previous: nat, d: nat, place: nat): (b: nat)
    requires previous < 64 && d < 64 && 1 <= place <= 3
    ensures b < 256
  {
    if place == 1 then previous * 4 + d / 16
    else if place == 2 then previous % 16 * 16 + d / 4
    else previous % 4 * 64 + d
  }

  /** The whole bytes in a run of six-bit digits. */
  function BytesOf(digits: seq<nat>): Bytes
    requires forall i :: 0 <= i < |digits| ==> digits[i] < 64
  {
    if digits == [] then []
    else
      var n := |digits| - 1;
      var front := BytesOf(digits[..n]);
      if n % 4 == 0 then front else front + [NewByte(digits[n - 1], digits[n], n % 4) as byte]
  }

  /** The bits after the last whole byte. */
  function Left(digits: seq<nat>): nat {
    if |digits| % 4 == 0 then 0
    else
      var last := digits[|digits| - 1];
      if |digits| % 4 == 1 then last else if |digits| % 4 == 2 then last % 16 else last % 4
  }

  // ---------------------------------------------------------------------
  // The decoder, one character at a time
  // ---------------------------------------------------------------------

  function After(front: Bytes, r: Option<Bytes>): Option<Bytes> {
    match r
    case None => None
    case Some(back) => Some(front + back)
  }

  lemma AfterNothing(r: Option<Bytes>)
    ensures After([], r) == r
  {
    if r.Some? { assert [] + r.value == r.value; }
  }

  lemma AfterByte(front: Bytes, value: nat, r: Option<Bytes>)
    requires value < 256
    ensures After(front, AddByte(value, r)) == After(front + [value as byte], r)
  {
    if r.Some? { assert front + ([value as byte] + r.value) == front + [value as byte] + r.value; }
  }

  function Pads(s: string): nat {
    if Quad(s) >= 2 then PadsAtEnd(s) else 0
  }

  lemma LeftFits(digits: seq<nat>)
    requires forall i :: 0 <= i < |digits| ==> digits[i] < 64
    ensures |digits| % 4 == 1 ==> Left(digits) < 64
    ensures |digits| % 4 == 2 ==> Left(digits) < 16
    ensures |digits| % 4 == 3 ==> Left(digits) < 4
  {
  }

  /** Decoding resumed after `s`. */
  function Resume(s: string, rest: string): Option<Bytes> {
    LeftFits(DigitsIn(s));
    After(BytesOf(DigitsIn(s)), Decode64(rest, Quad(s), Left(DigitsIn(s)), Pads(s)))
  }

  lemma LastChar(s: string, ch: char)
    ensures (s + [ch])[..|s|] == s && (s + [ch])[|s|] == ch
  {
  }

  lemma ResumePad(s: string, rest: string)
    requires !(Quad(s) >= 2 && Quad(s) + PadsAtEnd(s) + 1 >= 4)
    ensures Resume(s, ['='] + rest) == Resume(s + ['='], rest)
  {
    hide BytesOf, Left;
    LastChar(s, '=');
    assert (['='] + rest)[1..] == rest;
    LeftFits(DigitsIn(s));
  }

  lemma ResumeForeign(s: string, ch: char, rest: string)
    requires ch != '=' && UrlDigitOf(ch).None?
    ensures Resume(s, [ch] + rest) == Resume(s + [ch], rest)
  {
    hide BytesOf, Left, UrlDigitOf;
    LastChar(s, ch);
    assert ([ch] + rest)[1..] == rest;
    LeftFits(DigitsIn(s));
  }

  lemma DigitOfBounded(ch: char)
    ensures UrlDigitOf(ch).Some? ==> UrlDigitOf(ch).value < 64
    ensures UrlDigitOf('=').None?
  {
  }

  lemma BytesOfMore(digits: seq<nat>, d: nat)
    requires d < 64 && forall i :: 0 <= i < |digits| ==> digits[i] < 64
    ensures BytesOf(digits + [d])
         == if |digits| % 4 == 0 then BytesOf(digits)
            else BytesOf(digits) + [NewByte(digits[|digits| - 1], d, |digits| % 4) as byte]
  {
    hide NewByte;
    assert (digits + [d])[..|digits|] == digits;
  }

  lemma LeftOfMore(digits: seq<nat>, d: nat)
    ensures var q := |digits| % 4;
            Left(digits + [d]) == (if q == 0 then d else if q == 1 then d % 16 else if q == 2 then d % 4 else 0)
  {
  }

  lemma NewByteOfLeft(digits: seq<nat>, d: nat)
    requires digits != [] && digits[|digits| - 1] < 64 && d < 64 && |digits| % 4 != 0
    ensures var q := |digits| % 4;
            NewByte(digits[|digits| - 1], d, q)
            == (if q == 1 then Left(digits) * 4 + d / 16
                else if q == 2 then Left(digits) * 16 + d / 4
                else Left(digits) * 64 + d)
  {
  }

  /** What one more digit adds to the bytes and leaves over. */
  lemma OneDigit(digits: seq<nat>, d: nat)
    requires d < 64 && forall i :: 0 <= i < |digits| ==> digits[i] < 64
    ensures var q := |digits| % 4;
            var more := digits + [d];
            && Left(more) == (if q == 0 then d else if q == 1 then d % 16 else if q == 2 then d % 4 else 0)
            && (q != 0 ==> 0 <= Left(digits) * (if q == 1 then 4 else if q == 2 then 16 else 64)
                                + (if q == 1 then d / 16 else if q == 2 then d / 4 else d) < 256)
            && BytesOf(more) == (if q == 0 then BytesOf(digits)
                                 else BytesOf(digits) + [(if q == 1 then Left(digits) * 4 + d / 16
                                                          else if q == 2 then Left(digits) * 16 + d / 4
                                                          else Left(digits) * 64 + d) as byte])
  {
    hide BytesOf, NewByte, Left;
    BytesOfMore(digits, d);
    LeftOfMore(digits, d);
    if |digits| % 4 != 0 { NewByteOfLeft(digits, d); }
  }

  /** The decoder's branch for one digit. */
  lemma DigitBranch(ch: char, d: nat, rest: string, quad: nat, left: nat, pads: nat)
    requires UrlDigitOf(ch) == Some(d) && d < 64 && ch != '='
    requires quad < 4
    requires quad == 1 ==> left < 64
    requires quad == 2 ==> left < 16
    requires quad == 3 ==> left < 4
    ensures Decode64([ch] + rest, quad, left, pads)
         == if quad == 0 then Decode64(rest, 1, d, 0)
            else if quad == 1 then AddByte(left * 4 + d / 16, Decode64(rest, 2, d % 16, 0))
            else if quad == 2 then AddByte(left * 16 + d / 4, Decode64(rest, 3, d % 4, 0))
            else AddByte(left * 64 + d, Decode64(rest, 0, 0, 0))
  {
    hide AddByte, UrlDigitOf;
    assert ([ch] + rest)[1..] == rest;
  }

  lemma ResumeDigit(s: string, ch: char, d: nat, rest: string)
    requires UrlDigitOf(ch) == Some(d)
    ensures Resume(s, [ch] + rest) == Resume(s + [ch], rest)
  {
    hide BytesOf, Left, UrlDigitOf, Decode64, AddByte, After;
    DigitOfBounded(ch);
    LastChar(s, ch);
    var digits := DigitsIn(s);
    LeftFits(digits);
    assert DigitsIn(s + [ch]) == digits + [d];
    assert PadsAtEnd(s + [ch]) == 0;
    OneDigit(digits, d);
    DigitBranch(ch, d, rest, Quad(s), Left(digits), Pads(s));
    var front := BytesOf(digits);
    if Quad(s) == 1 {
      AfterByte(front, Left(digits) * 4 + d / 16, Decode64(rest, 2, d % 16, 0));
    } else if Quad(s) == 2 {
      AfterByte(front, Left(digits) * 16 + d / 4, Decode64(rest, 3, d % 4, 0));
    } else if Quad(s) == 3 {
      AfterByte(front, Left(digits) * 64 + d, Decode64(rest, 0, 0, 0));
    }
  }

  lemma ResumeStep(s: string, k: nat)
    requires k < |s| && !StopsAt(s, k)
    ensures Resume(s[..k], s[k..]) == Resume(s[..k + 1], s[k + 1..])
  {
    hide Resume, Quad, PadsAtEnd;
    var front, ch, rest := s[..k], s[k], s[k + 1..];
    assert s[k..] == [ch] + rest && s[..k + 1] == front + [ch];
    DigitOfBounded(ch);
    if ch == '=' {
      OnePad(front);
      ResumePad(front, rest);
    } else if UrlDigitOf(ch).None? {
      ResumeForeign(front, ch, rest);
    } else {
      ResumeDigit(front, ch, UrlDigitOf(ch).value, rest);
    }
  }

  lemma OnePad(s: string)
    ensures PadsAtEnd(s + ['=']) == PadsAtEnd(s) + 1 && Quad(s + ['=']) == Quad(s)
  {
    LastChar(s, '=');
  }

  /** Decoding up to a place before the first stop. */
  lemma {:induction false} DecodeUpTo(s: string, k: nat)
    requires k <= |s| && forall j :: 0 <= j < k ==> !StopsAt(s, j)
    ensures Decode64(s, 0, 0, 0) == Resume(s[..k], s[k..])
  {
    if k == 0 {
      assert s[..0] == "" && s[0..] == s;
      AfterNothing(Decode64(s, 0, 0, 0));
    } else {
      hide Resume, StopsAt, Decode64;
      DecodeUpTo(s, k - 1);
      ResumeStep(s, k - 1);
    }
  }

  /** Padding alone completes a group, or does not. */
  lemma {:induction false} DecodePads(n: nat, quad: nat, left: nat, pads: nat)
    requires quad < 4
    requires quad == 1 ==> left < 64
    requires quad == 2 ==> left < 16
    requires quad == 3 ==> left < 4
    ensures Decode64(Repeat('=', n), quad, left, pads)
         == if quad == 0 || (quad >= 2 && n > 0 && quad + pads + n >= 4) then Some([]) else None
    decreases n
  {
    if n > 0 {
      assert Repeat('=', n)[1..] == Repeat('=', n - 1);
      DecodePads(n - 1, quad, left, if quad >= 2 then pads + 1 else pads);
    }
  }

  lemma ResumePads(s: string, n: nat)
    ensures Resume(s, Repeat('=', n))
         == if Quad(s) == 0 || (Quad(s) >= 2 && n > 0 && Quad(s) + PadsAtEnd(s) + n >= 4)
            then Some(BytesOf(DigitsIn(s))) else None
  {
    hide BytesOf, Left, Decode64, DigitsIn, PadsAtEnd, Repeat;
    LeftFits(DigitsIn(s));
    DecodePads(n, Quad(s), Left(DigitsIn(s)), Pads(s));
    assert BytesOf(DigitsIn(s)) + [] == BytesOf(DigitsIn(s));
  }

  lemma ResumeStop(s: string, rest: string)
    requires Quad(s) >= 2 && Quad(s) + PadsAtEnd(s) + 1 >= 4
    ensures Resume(s, ['='] + rest) == Some(BytesOf(DigitsIn(s)))
  {
    hide BytesOf, Left, DigitsIn, PadsAtEnd;
    LeftFits(DigitsIn(s));
    assert BytesOf(DigitsIn(s)) + [] == BytesOf(DigitsIn(s));
  }

  lemma StopsAlike(s: string, tail: string, i: int)
    requires 0 <= i < |s|
    ensures StopsAt(s + tail, i) <==> StopsAt(s, i)
  {
    assert (s + tail)[..i] == s[..i] && (s + tail)[..i + 1] == s[..i + 1];
  }

  /** The decoder on a name with padding behind it: which names it accepts, and the bytes it reads. */
  lemma DecodePadded(s: string, extra: nat)
    ensures Decode64(s + Repeat('=', extra), 0, 0, 0)
         == if Complete(s, extra) then Some(BytesOf(DigitsIn(Significant(s)))) else None
  {
    hide Decode64, Resume, StopsAt, BytesOf, Quad, PadsAtEnd, Repeat;
    var padded := s + Repeat('=', extra);
    var stop := FirstStop(s, 0);
    forall j | 0 <= j < stop ensures !StopsAt(padded, j) {
      StopsAlike(s, Repeat('=', extra), j);
    }
    DecodeUpTo(padded, stop);
    if stop < |s| {
      assert padded[stop..] == [s[stop]] + padded[stop + 1..] && padded[..stop] == s[..stop];
      StopMeans(s, stop);
      ResumeStop(s[..stop], padded[stop + 1..]);
    } else {
      assert padded[..stop] == s && padded[stop..] == Repeat('=', extra) && s[..stop] == s;
      ResumePads(s, extra);
    }
  }

  lemma StopMeans(s: string, i: int)
    requires StopsAt(s, i)
    ensures 0 <= i < |s| && s[i] == '=' && Quad(s[..i]) >= 2 && Quad(s[..i]) + PadsAtEnd(s[..i]) + 1 >= 4
  {
    assert s[..i + 1] == s[..i] + ['='];
    OnePad(s[..i]);
  }

  // ---------------------------------------------------------------------
  // Which names decode
  // ---------------------------------------------------------------------

  function BytesIn(d: string): Bytes {
    BytesOf(DigitsIn(Significant(d)))
  }

  /** What any name at all decodes to. */
  lemma DirnameDecodes(d: string)
    ensures ReleaseFromDirname(d)
         == if IsAscii(d) && Complete(d, Padding(|d|)) then DecodeUtf8(BytesIn(d)) else None
  {
    hide Decode64, DecodeUtf8, Complete, BytesOf, Significant;
    var padded := d + Repeat('=', Padding(|d|));
    assert IsAscii(padded) <==> IsAscii(d) by {
      assert forall i :: 0 <= i < |d| ==> padded[i] == d[i];
    }
    DecodePadded(d, Padding(|d|));
  }

  lemma {:induction false} NoPads(d: string)
    requires forall i :: 0 <= i < |d| ==> d[i] != '='
    ensures PadsAtEnd(d) == 0 && FirstStop(d, 0) == |d| && Significant(d) == d
  {
    hide FirstStop, Quad;
    NoPadsAtEnd(d);
  }

  lemma {:induction false} NoPadsAtEnd(d: string)
    requires forall i :: 0 <= i < |d| ==> d[i] != '='
    ensures PadsAtEnd(d) == 0
  {
    if d != "" {
      NoPadsAtEnd(d[..|d| - 1]);
    }
  }

  /** On names without a padding character: the digit count, the padding added and UTF-8 decide. */
  lemma UnpaddedDirnameIff(d: string)
    requires forall i :: 0 <= i < |d| ==> d[i] != '='
    ensures var n := |DigitsIn(d)|;
            ReleaseFromDirname(d).Some? <==>
              && IsAscii(d)
              && (n % 4 == 0 || (n % 4 == 2 && Padding(|d|) >= 2) || (n % 4 == 3 && Padding(|d|) >= 1))
              && DecodeUtf8(BytesOf(DigitsIn(d))).Some?
  {
    hide DecodeUtf8, BytesOf, DigitsIn, PadsAtEnd, FirstStop, ReleaseFromDirname, Significant;
    NoPads(d);
    DirnameDecodes(d);
  }

  // ---------------------------------------------------------------------
  // Against the description
  // ---------------------------------------------------------------------

  predicate InUrlAlphabetOnly(d: string) {
    forall i :: 0 <= i < |d| ==> InUrlAlphabet(d[i])
  }

  /** Unpadded base64url (RFC 4648 section 5) of UTF-8. */
  predicate IsBase64UrlOfUtf8(d: string) {
    InUrlAlphabetOnly(d) && |d| % 4 != 1 && DecodeUtf8(BytesOf(DigitsIn(d))).Some?
  }

  lemma {:induction false} AlphabetDigits(d: string)
    requires InUrlAlphabetOnly(d)
    ensures |DigitsIn(d)| == |d|
    ensures Chars(DigitsIn(d)) == d
  {
    if d != "" {
      var front, ch := d[..|d| - 1], d[|d| - 1];
      AlphabetDigits(front);
      AlphabetChar(ch);
      assert DigitsIn(d) == DigitsIn(front) + [UrlDigitOf(ch).value];
      assert Chars(DigitsIn(d)) == Chars(DigitsIn(front)) + [ch];
      assert front + [ch] == d;
    }
  }

  lemma AlphabetChar(ch: char)
    requires InUrlAlphabet(ch)
    ensures UrlDigitOf(ch).Some? && UrlDigitOf(ch).value < 64 && UrlCharOf(UrlDigitOf(ch).value) == ch
    ensures ch as int < 128 && ch != '='
  {
  }

  /** Inside the alphabet the description holds in both directions. */
  lemma AlphabetNamesAsDescribed(d: string)
    requires InUrlAlphabetOnly(d)
    ensures ReleaseFromDirname(d).Some? <==> IsBase64UrlOfUtf8(d)
  {
    hide DecodeUtf8, BytesOf, DigitsIn, ReleaseFromDirname, InUrlAlphabet;
    AlphabetDigits(d);
    forall i | 0 <= i < |d| ensures d[i] as int < 128 && d[i] != '=' {
      AlphabetChar(d[i]);
    }
    UnpaddedDirnameIff(d);
  }

  /**
   A name that is not base64url of UTF-8 is nevertheless given a release
   exactly when it is ASCII, holds a character outside the URL-safe alphabet,
   ends where a group of digits ends once those are passed over, and the bytes
   are UTF-8. Padding characters of the name count towards its own padding.
   */
  lemma StrayNameDecodesIff(d: string)
    ensures ReleaseFromDirname(d).Some? && !IsBase64UrlOfUtf8(d)
       <==> && !InUrlAlphabetOnly(d) && IsAscii(d)
            && Complete(d, Padding(|d|)) && DecodeUtf8(BytesIn(d)).Some?
  {
    hide DecodeUtf8, BytesOf, DigitsIn, ReleaseFromDirname, InUrlAlphabet, Complete, BytesIn;
    DirnameDecodes(d);
    if InUrlAlphabetOnly(d) {
      AlphabetNamesAsDescribed(d);
    }
  }

  /** A stray directory `!` is taken for the empty release. */
  lemma StrayDirectoryDecodes()
    ensures ReleaseFromDirname("!") == Some("") && !IsBase64UrlOfUtf8("!")
  {
    hide ReleaseFromDirname;
    NoPads("!");
    DirnameDecodes("!");
    assert "!"[..0] == "";
    assert DigitsIn("!") == [];
    assert !InUrlAlphabet("!"[0]);
  }

  /** Every release also decodes from its name with the padding left on, which is not an unpadded name. */
  lemma PaddedNameDecodes(release: string)
    ensures var d := UrlSafeEncode(EncodeUtf8(release));
            && ReleaseFromDirname(d) == Some(release)
            && (|ReleaseDirname(release)| % 4 != 0 ==> !IsBase64UrlOfUtf8(d))
  {
    hide EncodeUtf8, DecodeUtf8, Digits, Decode64, ReleaseDirname, UrlDigitOf;
    var bytes := EncodeUtf8(release);
    var d := UrlSafeEncode(bytes);
    Decode64Digits(bytes);
    Utf8RoundTrip(release);
    DirnameIsDigits(release);
    assert |d| % 4 == 0 && d + Repeat('=', 0) == d;
    var n := |Digits(bytes)|;
    assert forall i :: 0 <= i < n ==> InUrlAlphabet(d[i]);
    if n % 4 != 0 {
      assert d[n] == '=' && !InUrlAlphabet(d[n]);
    }
  }

  // ---------------------------------------------------------------------
  // Canonical names
  // ---------------------------------------------------------------------

  lemma JoinDigits(high: nat, low: nat)
    requires low < 64
    ensures (high * 64 + low) / 64 == high && (high * 64 + low) % 64 == low
  {
  }

  lemma TwoParts(c: nat, x: nat, y: nat)
    requires c == x * 64 + y && y < 64
    ensures c / 64 == x && c % 64 == y
  {
    JoinDigits(x, y);
  }

  lemma ThreeParts(c: nat, x: nat, y: nat, z: nat)
    requires c == x * 4096 + y * 64 + z && y < 64 && z < 64
    ensures c / 4096 == x && c / 64 % 64 == y && c % 64 == z
  {
    TwoParts(c, x * 64 + y, z);
    JoinDigits(x, y);
  }

  lemma FourParts(c: nat, w: nat, x: nat, y: nat, z: nat)
    requires c == w * 262144 + x * 4096 + y * 64 + z && x < 64 && y < 64 && z < 64
    ensures c / 262144 == w && c / 4096 % 64 == x && c / 64 % 64 == y && c % 64 == z
  {
    ThreeParts(c, w * 64 + x, y, z);
    JoinDigits(w, x);
  }

  lemma DecodedCharEncodes(bytes: Bytes)
    requires bytes != [] && DecodeChar(bytes).Some?
    ensures EncodeChar(DecodeChar(bytes).value.0) == bytes[..DecodeChar(bytes).value.1]
  {
    var (ch, n) := DecodeChar(bytes).value;
    if n == 1 {
      OneByte(bytes);
    } else if n == 2 {
      TwoBytes(bytes);
    } else if n == 3 {
      ThreeBytes(bytes);
    } else {
      FourBytes(bytes);
    }
  }

  lemma OneByte(bytes: Bytes)
    requires bytes != [] && DecodeChar(bytes).Some? && DecodeChar(bytes).value.1 == 1
    ensures EncodeChar(DecodeChar(bytes).value.0) == bytes[..1]
  {
  }

  lemma TwoBytes(bytes: Bytes)
    requires bytes != [] && DecodeChar(bytes).Some? && DecodeChar(bytes).value.1 == 2
    ensures EncodeChar(DecodeChar(bytes).value.0) == bytes[..2]
  {
    TwoParts(DecodeChar(bytes).value.0 as int, bytes[0] as int - 0xC0, bytes[1] as int - 0x80);
  }

  lemma ThreeBytes(bytes: Bytes)
    requires bytes != [] && DecodeChar(bytes).Some? && DecodeChar(bytes).value.1 == 3
    ensures EncodeChar(DecodeChar(bytes).value.0) == bytes[..3]
  {
    ThreeParts(DecodeChar(bytes).value.0 as int, bytes[0] as int - 0xE0, bytes[1] as int - 0x80, bytes[2] as int - 0x80);
  }

  lemma FourBytes(bytes: Bytes)
    requires bytes != [] && DecodeChar(bytes).Some? && DecodeChar(bytes).value.1 > 3
    ensures DecodeChar(bytes).value.1 == 4
    ensures EncodeChar(DecodeChar(bytes).value.0) == bytes[..4]
  {
    FourParts(DecodeChar(bytes).value.0 as int, bytes[0] as int - 0xF0, bytes[1] as int - 0x80,
              bytes[2] as int - 0x80, bytes[3] as int - 0x80);
  }

  /** UTF-8 has one encoding of a string: overlong forms are rejected. */
  lemma {:induction false} Utf8Canonical(bytes: Bytes)
    requires DecodeUtf8(bytes).Some?
    ensures EncodeUtf8(DecodeUtf8(bytes).value) == bytes
    decreases |bytes|
  {
    hide DecodeChar, EncodeChar;
    if bytes != [] {
      var (ch, n) := DecodeChar(bytes).value;
      DecodedCharEncodes(bytes);
      Utf8Canonical(bytes[n..]);
      var rest := DecodeUtf8(bytes[n..]).value;
      assert ([ch] + rest)[1..] == rest;
      assert bytes[..n] + bytes[n..] == bytes;
    }
  }

  /** The first group of digits is the first three bytes. */
  lemma {:induction false} BytesOfGroup(digits: seq<nat>)
    requires |digits| >= 4 && forall i :: 0 <= i < |digits| ==> digits[i] < 64
    ensures BytesOf(digits)
         == [NewByte(digits[0], digits[1], 1) as byte, NewByte(digits[1], digits[2], 2) as byte,
             NewByte(digits[2], digits[3], 3) as byte] + BytesOf(digits[4..])
    decreases |digits|
  {
    hide NewByte;
    var n := |digits| - 1;
    if |digits| == 4 {
      assert digits[..3][..2] == digits[..2] && digits[..2][..1] == digits[..1] && digits[..1][..0] == [];
      assert BytesOf(digits[..1]) == [];
      assert BytesOf(digits[..2]) == [NewByte(digits[0], digits[1], 1) as byte];
    } else {
      BytesOfGroup(digits[..n]);
      assert digits[..n][4..] == digits[4..][..n - 4];
    }
  }

  lemma LeftOfGroup(digits: seq<nat>)
    requires |digits| >= 4
    ensures Left(digits) == Left(digits[4..])
  {
  }

  lemma GroupDigits(a: nat, b: nat, c: nat, d: nat)
    requires a < 64 && b < 64 && c < 64 && d < 64
    ensures var x, y, z := NewByte(a, b, 1), NewByte(b, c, 2), NewByte(c, d, 3);
            x / 4 == a && x % 4 * 16 + y / 16 == b && y % 16 * 4 + z / 64 == c && z % 64 == d
  {
  }

  lemma ShortBytes(digits: seq<nat>)
    requires |digits| == 2 || |digits| == 3
    requires forall i :: 0 <= i < |digits| ==> digits[i] < 64
    ensures BytesOf(digits)
         == [NewByte(digits[0], digits[1], 1) as byte]
            + (if |digits| == 3 then [NewByte(digits[1], digits[2], 2) as byte] else [])
  {
    hide NewByte;
    var two := digits[..2];
    assert two[..1][..0] == [];
    assert BytesOf(two[..1]) == [];
    assert BytesOf(two) == [NewByte(digits[0], digits[1], 1) as byte];
    if |digits| == 2 { assert digits == two; }
  }

  lemma ShortDigits(digits: seq<nat>)
    requires |digits| == 2 || |digits| == 3
    requires forall i :: 0 <= i < |digits| ==> digits[i] < 64
    requires Left(digits) == 0
    ensures Digits(BytesOf(digits)) == digits
  {
    hide BytesOf, NewByte;
    ShortBytes(digits);
    if |digits| == 2 {
      PairOfDigits(digits[0], digits[1]);
      assert digits == [digits[0], digits[1]];
    } else {
      GroupDigits(digits[0], digits[1], digits[2], 0);
      TripleOfDigits(digits[1], digits[2]);
      assert digits == [digits[0], digits[1], digits[2]];
    }
  }

  lemma PairOfDigits(a: nat, b: nat)
    requires a < 64 && b < 64 && b % 16 == 0
    ensures NewByte(a, b, 1) / 4 == a && NewByte(a, b, 1) % 4 * 16 == b
  {
  }

  lemma TripleOfDigits(b: nat, c: nat)
    requires b < 64 && c < 64 && c % 4 == 0
    ensures NewByte(b, c, 2) % 16 * 4 == c
  {
  }

  lemma DigitsOfThree(x: byte, y: byte, z: byte, rest: Bytes)
    ensures var a, b, c := x as int, y as int, z as int;
            Digits([x, y, z] + rest)
            == [a / 4, a % 4 * 16 + b / 16, b % 16 * 4 + c / 64, c % 64] + Digits(rest)
  {
    assert ([x, y, z] + rest)[3..] == rest;
  }

  /** Digits with nothing left over are the digits of their bytes. */
  lemma {:induction false} DigitsOfBytes(digits: seq<nat>)
    requires forall i :: 0 <= i < |digits| ==> digits[i] < 64
    requires |digits| % 4 != 1 && Left(digits) == 0
    ensures Digits(BytesOf(digits)) == digits
    decreases |digits|
  {
    hide NewByte, Left, Digits, BytesOf;
    if |digits| >= 4 {
      var a, b, c, d, rest := digits[0], digits[1], digits[2], digits[3], digits[4..];
      BytesOfGroup(digits);
      LeftOfGroup(digits);
      DigitsOfBytes(rest);
      GroupDigits(a, b, c, d);
      DigitsOfThree(NewByte(a, b, 1) as byte, NewByte(b, c, 2) as byte, NewByte(c, d, 3) as byte, BytesOf(rest));
      assert digits == [a, b, c, d] + rest;
    } else if digits != [] {
      ShortDigits(digits);
    } else {
      NoDigits();
    }
  }

  lemma NoDigits()
    ensures BytesOf([]) == [] && Digits([]) == []
  {
  }

  lemma {:induction false} DigitsLeaveNothing(bytes: Bytes)
    ensures Left(Digits(bytes)) == 0
    decreases |bytes|
  {
    if |bytes| >= 3 {
      DigitsLeaveNothing(bytes[3..]);
      hide Left, Digits;
      TripleDigits(bytes);
      LeftOfGroup(Digits(bytes));
    }
  }

  /** Reading a name back digit by digit gives the digits it was made of. */
  lemma {:induction false} DigitsOfChars(digits: seq<nat>)
    requires forall i :: 0 <= i < |digits| ==> digits[i] < 64
    ensures DigitsIn(Chars(digits)) == digits
    ensures InUrlAlphabetOnly(Chars(digits))
  {
    if digits != [] {
      var n := |digits| - 1;
      DigitsOfChars(digits[..n]);
      UrlDigit(digits[n]);
      assert Chars(digits)[..n] == Chars(digits[..n]);
      assert digits[..n] + [digits[n]] == digits;
    }
  }

  /** A name that decodes is the name its release is given exactly when it is in the alphabet and wastes no bit. */
  lemma CanonicalIff(d: string, release: string)
    requires ReleaseFromDirname(d) == Some(release)
    ensures ReleaseDirname(release) == d <==> InUrlAlphabetOnly(d) && Left(DigitsIn(d)) == 0
  {
    hide DecodeUtf8, EncodeUtf8, BytesOf, DigitsIn, Digits, Chars, Left, ReleaseFromDirname, ReleaseDirname, InUrlAlphabet, FirstStop;
    DirnameIsDigits(release);
    var digits := Digits(EncodeUtf8(release));
    DigitsOfChars(digits);
    DigitsLeaveNothing(EncodeUtf8(release));
    if InUrlAlphabetOnly(d) && Left(DigitsIn(d)) == 0 {
      AlphabetNamesAsDescribed(d);
      AlphabetDigits(d);
      AlphabetHasNoPads(d);
      NoPads(d);
      DirnameDecodes(d);
      Utf8Canonical(BytesOf(DigitsIn(d)));
      DigitsOfBytes(DigitsIn(d));
    }
  }

  lemma AlphabetHasNoPads(d: string)
    requires InUrlAlphabetOnly(d)
    ensures forall i :: 0 <= i < |d| ==> d[i] != '='
  {
  }
}
