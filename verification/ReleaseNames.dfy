/**
 Directory names for releases: unpadded URL-safe base64 (RFC 4648 section 5) of
 the UTF-8 release string (RFC 3629).
 */
module ReleaseNames {
  import opened Wrappers
  import Vlq

  // ---------------------------------------------------------------------
  // UTF-8
  // ---------------------------------------------------------------------

  newtype byte = b: int | 0 <= b < 256

  type Bytes = seq<byte>

  function EncodeChar(ch: char): (bytes: Bytes)
    ensures 1 <= |bytes| <= 4
  {
    var c := ch as int;
    if c < 0x80 then [c as byte]
    else if c < 0x800 then [(0xC0 + c / 64) as byte, (0x80 + c % 64) as byte]
    else if c < 0x10000 then
      [(0xE0 + c / 4096) as byte, (0x80 + c / 64 % 64) as byte, (0x80 + c % 64) as byte]
    else
      [(0xF0 + c / 262144) as byte, (0x80 + c / 4096 % 64) as byte, (0x80 + c / 64 % 64) as byte, (0x80 + c % 64) as byte]
  }

  function EncodeUtf8(s: string): Bytes {
    if s == "" then [] else EncodeChar(s[0]) + EncodeUtf8(s[1..])
  }

  predicate Continues(b: byte) {
    0x80 <= b < 0xC0
  }

  /** The first character of well-formed bytes and its length: no overlong form, no surrogate. */
  function DecodeChar(bytes: Bytes): (r: Option<(char, nat)>)
    requires bytes != []
    ensures r.Some? ==> 1 <= r.value.1 <= |bytes|
  {
    var b0 := bytes[0] as int;
    if b0 < 0x80 then Some((b0 as char, 1))
    else if 0xC2 <= b0 < 0xE0 && |bytes| >= 2 && Continues(bytes[1]) then
      Some((((b0 - 0xC0) * 64 + (bytes[1] as int - 0x80)) as char, 2))
    else if 0xE0 <= b0 < 0xF0 && |bytes| >= 3 && Continues(bytes[1]) && Continues(bytes[2]) then
      var c := (b0 - 0xE0) * 4096 + (bytes[1] as int - 0x80) * 64 + (bytes[2] as int - 0x80);
      if c < 0x800 || 0xD800 <= c < 0xE000 then None else Some((c as char, 3))
    else if 0xF0 <= b0 < 0xF5 && |bytes| >= 4 && Continues(bytes[1]) && Continues(bytes[2]) && Continues(bytes[3]) then
      var c := (b0 - 0xF0) * 262144 + (bytes[1] as int - 0x80) * 4096 + (bytes[2] as int - 0x80) * 64
               + (bytes[3] as int - 0x80);
      if c < 0x10000 || c > 0x10FFFF then None else Some((c as char, 4))
    else None
  }

  function DecodeUtf8(bytes: Bytes): Option<string> {
    if bytes == [] then Some("")
    else match DecodeChar(bytes)
      case None => None
      case Some((ch, n)) =>
        match DecodeUtf8(bytes[n..])
        case None => None
        case Some(rest) => Some([ch] + rest)
  }

  lemma SplitByDigits(c: nat)
    ensures c == c / 64 * 64 + c % 64
    ensures c / 64 == c / 4096 * 64 + c / 64 % 64
    ensures c / 4096 == c / 262144 * 64 + c / 4096 % 64
  {
  }

  lemma DecodeEncodedChar(ch: char, rest: Bytes)
    ensures DecodeChar(EncodeChar(ch) + rest) == Some((ch, |EncodeChar(ch)|))
  {
    var c := ch as int;
    SplitByDigits(c);
    var bytes := EncodeChar(ch) + rest;
    assert forall i :: 0 <= i < |EncodeChar(ch)| ==> bytes[i] == EncodeChar(ch)[i];
  }

  lemma {:induction false} Utf8RoundTrip(s: string)
    ensures DecodeUtf8(EncodeUtf8(s)) == Some(s)
  {
    if s != "" {
      hide DecodeChar, EncodeChar;
      DecodeEncodedChar(s[0], EncodeUtf8(s[1..]));
      Utf8RoundTrip(s[1..]);
      assert EncodeUtf8(s)[|EncodeChar(s[0])|..] == EncodeUtf8(s[1..]);
      assert [s[0]] + s[1..] == s;
    }
  }

  // ---------------------------------------------------------------------
  // Base64
  // ---------------------------------------------------------------------

  /** RFC 4648 section 5: the standard alphabet with `-` and `_` in the last two places. */
  function UrlCharOf(digit: nat): (ch: char)
    requires digit < 64
    ensures InUrlAlphabet(ch)
  {
    if digit == 62 then '-' else if digit == 63 then '_' else Vlq.CharOf(digit)
  }

  predicate InUrlAlphabet(ch: char) {
    'A' <= ch <= 'Z' || 'a' <= ch <= 'z' || '0' <= ch <= '9' || ch == '-' || ch == '_'
  }

  /** The decoder first turns `-` and `_` into `+` and `/`; the standard characters stay valid. */
  function UrlDigitOf(ch: char): Option<nat> {
    if ch == '-' then Some(62) else if ch == '_' then Some(63) else Vlq.DigitOf(ch)
  }

  lemma UrlDigit(digit: nat)
    requires digit < 64
    ensures UrlDigitOf(UrlCharOf(digit)) == Some(digit)
  {
  }

  /** The base64 digits of a byte string: groups of four for three bytes, then two or three. */
  function Digits(bytes: Bytes): (digits: seq<nat>)
    ensures forall i :: 0 <= i < |digits| ==> digits[i] < 64
    ensures |digits| % 4 != 1
    ensures |digits| == 0 <==> |bytes| == 0
  {
    if |bytes| == 0 then []
    else
      var b0 := bytes[0] as int;
      if |bytes| == 1 then [b0 / 4, b0 % 4 * 16]
      else
        var b1 := bytes[1] as int;
        if |bytes| == 2 then [b0 / 4, b0 % 4 * 16 + b1 / 16, b1 % 16 * 4]
        else
          var b2 := bytes[2] as int;
          [b0 / 4, b0 % 4 * 16 + b1 / 16, b1 % 16 * 4 + b2 / 64, b2 % 64] + Digits(bytes[3..])
  }

  function Chars(digits: seq<nat>): (s: string)
    requires forall i :: 0 <= i < |digits| ==> digits[i] < 64
    ensures |s| == |digits|
    ensures forall i :: 0 <= i < |s| ==> s[i] == UrlCharOf(digits[i])
  {
    seq(|digits|, i requires 0 <= i < |digits| => UrlCharOf(digits[i]))
  }

  function Padding(length: nat): nat {
    (4 - length % 4) % 4
  }

  function Repeat(ch: char, n: nat): (s: string)
    ensures |s| == n
    ensures forall i :: 0 <= i < n ==> s[i] == ch
  {
    seq(n, i => ch)
  }

  /** `base64.urlsafe_b64encode`, padding included. */
  function UrlSafeEncode(bytes: Bytes): string {
    var digits := Digits(bytes);
    Chars(digits) + Repeat('=', Padding(|digits|))
  }

  function StripRight(s: string, ch: char): string {
    if s != "" && s[|s| - 1] == ch then StripRight(s[..|s| - 1], ch) else s
  }

  function ReleaseDirname(release: string): string {
    StripRight(UrlSafeEncode(EncodeUtf8(release)), '=')
  }

  function AddByte(value: nat, rest: Option<Bytes>): Option<Bytes>
    requires value < 256
  {
    match rest
    case None => None
    case Some(bytes) => Some([value as byte] + bytes)
  }

  /**
   Python's base64 decoder as used here, without strict checking: characters
   outside the alphabet are skipped, a complete padding ends the input, and
   input that ends inside a group is an error. `quad` counts the digits of the
   open group, `left` holds its bits not yet written, `pads` the padding seen.
   */
  function Decode64(s: string, quad: nat, left: nat, pads: nat): Option<Bytes>
    requires quad < 4
    requires quad == 1 ==> left < 64
    requires quad == 2 ==> left < 16
    requires quad == 3 ==> left < 4
    decreases |s|
  {
    if s == "" then if quad == 0 then Some([]) else None
    else if s[0] == '=' then
      if quad >= 2 && quad + pads + 1 >= 4 then Some([])
      else Decode64(s[1..], quad, left, if quad >= 2 then pads + 1 else pads)
    else match UrlDigitOf(s[0])
      case None => Decode64(s[1..], quad, left, pads)
      case Some(d) =>
        if d >= 64 then Decode64(s[1..], quad, left, pads)
        else if quad == 0 then Decode64(s[1..], 1, d, 0)
        else if quad == 1 then AddByte(left * 4 + d / 16, Decode64(s[1..], 2, d % 16, 0))
        else if quad == 2 then AddByte(left * 16 + d / 4, Decode64(s[1..], 3, d % 4, 0))
        else AddByte(left * 64 + d, Decode64(s[1..], 0, 0, 0))
  }

  predicate IsAscii(s: string) {
    forall i :: 0 <= i < |s| ==> s[i] as int < 128
  }

  /** None for a name that is not ASCII, not decodable, or not UTF-8 underneath. */
  function ReleaseFromDirname(dirname: string): Option<string> {
    var padded := dirname + Repeat('=', Padding(|dirname|));
    if !IsAscii(padded) then None
    else match Decode64(padded, 0, 0, 0)
      case None => None
      case Some(bytes) => DecodeUtf8(bytes)
  }

  // ---------------------------------------------------------------------
  // The round trip
  // ---------------------------------------------------------------------

  lemma StripPadding(s: string, n: nat)
    requires s == "" || s[|s| - 1] != '='
    ensures StripRight(s + Repeat('=', n), '=') == s
  {
    if n == 0 {
      assert s + Repeat('=', 0) == s;
    } else {
      var padded := s + Repeat('=', n);
      assert padded[..|padded| - 1] == s + Repeat('=', n - 1);
      StripPadding(s, n - 1);
    }
  }

  /** The directory name is exactly the digits of the encoded release. */
  lemma DirnameIsDigits(release: string)
    ensures ReleaseDirname(release) == Chars(Digits(EncodeUtf8(release)))
  {
    hide EncodeUtf8, Digits;
    var digits := Digits(EncodeUtf8(release));
    StripPadding(Chars(digits), Padding(|digits|));
  }

  /** Decoding consumes one digit at a time. */
  lemma TakeDigit(digits: seq<nat>, tail: string, quad: nat, left: nat)
    requires digits != [] && forall i :: 0 <= i < |digits| ==> digits[i] < 64
    requires quad < 4
    requires quad == 1 ==> left < 64
    requires quad == 2 ==> left < 16
    requires quad == 3 ==> left < 4
    ensures var d := digits[0];
            var rest := Chars(digits[1..]) + tail;
            Decode64(Chars(digits) + tail, quad, left, 0)
            == if quad == 0 then Decode64(rest, 1, d, 0)
               else if quad == 1 then AddByte(left * 4 + d / 16, Decode64(rest, 2, d % 16, 0))
               else if quad == 2 then AddByte(left * 16 + d / 4, Decode64(rest, 3, d % 4, 0))
               else AddByte(left * 64 + d, Decode64(rest, 0, 0, 0))
  {
    var s := Chars(digits) + tail;
    UrlDigit(digits[0]);
    assert s[0] == UrlCharOf(digits[0]);
    assert s[1..] == Chars(digits[1..]) + tail;
    hide Chars, AddByte, UrlDigitOf, UrlCharOf;
  }

  lemma DecodePadding(quad: nat, left: nat)
    requires quad == 2 || quad == 3
    requires quad == 2 ==> left < 16
    requires quad == 3 ==> left < 4
    ensures Decode64(Repeat('=', 4 - quad), quad, left, 0) == Some([])
  {
    var s := Repeat('=', 4 - quad);
    if quad == 2 { assert s[1..] == Repeat('=', 1); }
  }

  /** Four digits decode to three bytes. */
  lemma DecodeGroup(digits: seq<nat>, tail: string)
    requires |digits| >= 4 && forall i :: 0 <= i < |digits| ==> digits[i] < 64
    ensures Decode64(Chars(digits) + tail, 0, 0, 0)
         == AddByte(digits[0] * 4 + digits[1] / 16,
              AddByte(digits[1] % 16 * 16 + digits[2] / 4,
                AddByte(digits[2] % 4 * 64 + digits[3], Decode64(Chars(digits[4..]) + tail, 0, 0, 0))))
  {
    hide Decode64, Chars, AddByte;
    TakeDigit(digits, tail, 0, 0);
    TakeDigit(digits[1..], tail, 1, digits[0]);
    TakeDigit(digits[2..], tail, 2, digits[1] % 16);
    TakeDigit(digits[3..], tail, 3, digits[2] % 4);
    assert digits[1..][1..] == digits[2..] && digits[2..][1..] == digits[3..] && digits[3..][1..] == digits[4..];
  }

  /** The digits of three bytes put back together. */
  lemma TripleDigits(bytes: Bytes)
    requires |bytes| >= 3
    ensures var digits := Digits(bytes);
            && |digits| >= 4 && digits[4..] == Digits(bytes[3..])
            && digits[0] * 4 + digits[1] / 16 == bytes[0] as int
            && digits[1] % 16 * 16 + digits[2] / 4 == bytes[1] as int
            && digits[2] % 4 * 64 + digits[3] == bytes[2] as int
  {
    assert Digits(bytes)[4..] == Digits(bytes[3..]);
  }

  lemma DecodeTriple(bytes: Bytes, tail: string)
    requires |bytes| >= 3
    requires Decode64(Chars(Digits(bytes[3..])) + tail, 0, 0, 0) == Some(bytes[3..])
    ensures Decode64(Chars(Digits(bytes)) + tail, 0, 0, 0) == Some(bytes)
  {
    hide Decode64, Chars, Digits;
    TripleDigits(bytes);
    DecodeGroup(Digits(bytes), tail);
    assert [bytes[0]] + ([bytes[1]] + ([bytes[2]] + bytes[3..])) == bytes;
  }

  lemma OneDigits(bytes: Bytes)
    requires |bytes| == 1
    ensures var digits := Digits(bytes);
            |digits| == 2 && digits[1] % 16 == 0 && digits[0] * 4 + digits[1] / 16 == bytes[0] as int
  {
  }

  lemma DecodeOne(bytes: Bytes)
    requires |bytes| == 1
    ensures Decode64(Chars(Digits(bytes)) + Repeat('=', 2), 0, 0, 0) == Some(bytes)
  {
    hide Decode64, Chars, Repeat, Digits;
    var digits, tail := Digits(bytes), Repeat('=', 2);
    OneDigits(bytes);
    TakeDigit(digits, tail, 0, 0);
    TakeDigit(digits[1..], tail, 1, digits[0]);
    assert digits[1..][1..] == [];
    assert Chars([]) + tail == tail;
    DecodePadding(2, 0);
    assert [bytes[0]] + [] == bytes;
  }

  lemma PairDigits(bytes: Bytes)
    requires |bytes| == 2
    ensures var digits := Digits(bytes);
            && |digits| == 3 && digits[2] % 4 == 0
            && digits[0] * 4 + digits[1] / 16 == bytes[0] as int
            && digits[1] % 16 * 16 + digits[2] / 4 == bytes[1] as int
  {
  }

  lemma DecodeTwo(bytes: Bytes)
    requires |bytes| == 2
    ensures Decode64(Chars(Digits(bytes)) + Repeat('=', 1), 0, 0, 0) == Some(bytes)
  {
    hide Decode64, Chars, Repeat, Digits;
    var digits, tail := Digits(bytes), Repeat('=', 1);
    PairDigits(bytes);
    TakeDigit(digits, tail, 0, 0);
    TakeDigit(digits[1..], tail, 1, digits[0]);
    TakeDigit(digits[2..], tail, 2, digits[1] % 16);
    assert digits[1..][1..] == digits[2..] && digits[2..][1..] == [];
    assert Chars([]) + tail == tail;
    DecodePadding(3, 0);
    assert [bytes[0]] + ([bytes[1]] + []) == bytes;
  }

  lemma {:induction false} Decode64Digits(bytes: Bytes)
    ensures var digits := Digits(bytes);
            Decode64(Chars(digits) + Repeat('=', Padding(|digits|)), 0, 0, 0) == Some(bytes)
  {
    hide Decode64, Chars;
    if |bytes| >= 3 {
      Decode64Digits(bytes[3..]);
      DecodeTriple(bytes, Repeat('=', Padding(|Digits(bytes)|)));
    } else if |bytes| == 2 {
      DecodeTwo(bytes);
    } else if |bytes| == 1 {
      DecodeOne(bytes);
    } else {
      DecodeNothing();
    }
  }

  lemma DecodeNothing()
    ensures Decode64(Chars([]) + Repeat('=', 0), 0, 0, 0) == Some([])
  {
  }

  /** Stripping the padding and adding it back gives the release back, on every release string. */
  lemma DirnameRoundTrip(release: string)
    ensures ReleaseFromDirname(ReleaseDirname(release)) == Some(release)
  {
    hide EncodeUtf8, DecodeUtf8, Digits, Decode64, ReleaseDirname;
    DirnameIsDigits(release);
    var bytes := EncodeUtf8(release);
    var name := ReleaseDirname(release);
    Decode64Digits(bytes);
    Utf8RoundTrip(release);
    assert forall i :: 0 <= i < |name| ==> InUrlAlphabet(name[i]);
  }

  /**
   Every name uses the URL-safe alphabet only, so it has no separator or dot;
   it is empty only for the empty release; distinct releases get distinct names.
   */
  lemma DirnamesAreSafe(release: string, other: string)
    ensures forall i :: 0 <= i < |ReleaseDirname(release)| ==> InUrlAlphabet(ReleaseDirname(release)[i])
    ensures ReleaseDirname(release) == "" <==> release == ""
    ensures ReleaseDirname(release) == ReleaseDirname(other) <==> release == other
  {
    hide Digits, Decode64, ReleaseDirname, ReleaseFromDirname;
    DirnameIsDigits(release);
    DirnameRoundTrip(release);
    DirnameRoundTrip(other);
  }

  // ---------------------------------------------------------------------
  // Deleting a release
  // ---------------------------------------------------------------------

  /** One project's directory, if it is there: release directories by name, each with its files. */
  type Tree = Option<map<string, set<string>>>

  /**
   The tree after `shutil.rmtree` of one release directory, and whether there
   was one. An empty name joins to the project directory itself.
   */
  function DeleteReleaseMaps(tree: Tree, release: string): (Tree, bool) {
    var name := ReleaseDirname(release);
    match tree
    case None => (None, false)
    case Some(dirs) =>
      if name == "" then (None, true)
      else (Some(dirs - {name}), name in dirs)
  }

  function FilesOf(tree: Tree, release: string): set<string> {
    match tree
    case None => {}
    case Some(dirs) => if ReleaseDirname(release) in dirs then dirs[ReleaseDirname(release)] else {}
  }

  /**
   Deleting a release empties it and leaves the files of every other release
   alone, exactly when the release is not the empty string: that one takes the
   whole project directory. It reports whether it removed anything.
   */
  lemma DeleteTouchesOneRelease(tree: Tree, release: string, other: string)
    ensures DeleteReleaseMaps(tree, release).1 <==> DeleteReleaseMaps(tree, release).0 != tree
    ensures release != "" ==>
              FilesOf(DeleteReleaseMaps(tree, release).0, other) == (if other == release then {} else FilesOf(tree, other))
    ensures release == "" ==> FilesOf(DeleteReleaseMaps(tree, release).0, other) == {}
  {
    hide ReleaseDirname;
    DirnamesAreSafe(release, other);
    if tree.Some? {
      var name := ReleaseDirname(release);
      if name in tree.value {
        assert name !in tree.value - {name};
      } else {
        assert tree.value - {name} == tree.value;
      }
    }
  }

  // ---------------------------------------------------------------------
  // Known names
  // ---------------------------------------------------------------------

  /** RFC 4648 section 5: the alphabet, place by place. */
  lemma UrlAlphabetIndex(digit: nat)
    requires digit < 64
    ensures UrlCharOf(digit) == (Vlq.UPPER + Vlq.LOWER + Vlq.NUMERALS + "-_")[digit]
  {
    Vlq.UpperAt(digit);
    Vlq.LowerAt(if digit < 26 then 0 else digit - 26);
    Vlq.NumeralAt(if digit < 52 then 0 else digit - 52);
    Vlq.PieceAt(Vlq.UPPER, Vlq.LOWER, Vlq.NUMERALS, "-_", digit);
  }

  /** RFC 3629: characters of one to four bytes. */
  lemma KnownCharacters()
    ensures EncodeChar('A') == [0x41]
    ensures EncodeChar('\U{E9}') == [0xC3, 0xA9]
    ensures EncodeChar('\U{20AC}') == [0xE2, 0x82, 0xAC]
    ensures EncodeChar('\U{1F600}') == [0xF0, 0x9F, 0x98, 0x80]
  {
  }

  /** High bits first, three bytes to four digits, a last byte to two and a last pair to three. */
  lemma KnownDigits()
    ensures Digits([0x31, 0x2E, 0x30]) == [12, 18, 56, 48]
    ensures Digits([0x31]) == [12, 16]
    ensures Digits([0x31, 0x2E]) == [12, 18, 56]
  {
    assert [0x31 as byte, 0x2E, 0x30][3..] == [];
  }

  /** The directory of release `1.0`. */
  lemma KnownDirname()
    ensures ReleaseDirname("1.0") == "MS4w"
  {
    hide Digits, ReleaseDirname;
    var s := "1.0";
    assert s[1..] == ".0" && ".0"[1..] == "0" && "0"[1..] == "";
    assert EncodeUtf8("0") == [0x30] && EncodeUtf8(".0") == [0x2E, 0x30] && EncodeUtf8(s) == [0x31, 0x2E, 0x30];
    KnownDigits();
    DirnameIsDigits(s);
    assert Chars([12, 18, 56, 48]) == "MS4w";
  }
}
