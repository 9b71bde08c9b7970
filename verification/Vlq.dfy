/**
 Base64 VLQ, the number format of the `mappings` field (Source Map Revision 3
 Proposal, "Proposed Format"; the alphabet is that of RFC 4648 section 4).
 */
module Vlq {
  import opened Wrappers

  const UPPER: string := "ABCDEFGHIJKLMNOPQRSTUVWXYZ"
  const LOWER: string := "abcdefghijklmnopqrstuvwxyz"
  const NUMERALS: string := "0123456789"
  const ALPHABET: string := UPPER + LOWER + NUMERALS + "+/"

  const CONTINUATION := 32

  datatype Error = InvalidCharacter(ch: char) | Truncated

  /** The position of `ch` in the alphabet. */
  function DigitOf(ch: char): Option<nat> {
    if 'A' <= ch <= 'Z' then Some(ch as int - 'A' as int)
    else if 'a' <= ch <= 'z' then Some(ch as int - 'a' as int + 26)
    else if '0' <= ch <= '9' then Some(ch as int - '0' as int + 52)
    else if ch == '+' then Some(62)
    else if ch == '/' then Some(63)
    else None
  }

  function CharOf(digit: nat): (ch: char)
    requires digit < 64
    ensures DigitOf(ch) == Some(digit)
  {
    if digit < 26 then ('A' as int + digit) as char
    else if digit < 52 then ('a' as int + digit - 26) as char
    else if digit < 62 then ('0' as int + digit - 52) as char
    else if digit == 62 then '+'
    else '/'
  }

  lemma UpperAt(i: nat)
    ensures |UPPER| == 26 && (i < 26 ==> UPPER[i] as int == 'A' as int + i)
  {
  }

  lemma LowerAt(i: nat)
    ensures |LOWER| == 26 && (i < 26 ==> LOWER[i] as int == 'a' as int + i)
  {
  }

  lemma NumeralAt(i: nat)
    ensures |NUMERALS| == 10 && (i < 10 ==> NUMERALS[i] as int == '0' as int + i)
  {
  }

  lemma PieceAt(a: string, b: string, c: string, d: string, i: nat)
    requires i < |a| + |b| + |c| + |d|
    ensures (a + b + c + d)[i]
         == if i < |a| then a[i]
            else if i < |a| + |b| then b[i - |a|]
            else if i < |a| + |b| + |c| then c[i - |a| - |b|]
            else d[i - |a| - |b| - |c|]
  {
  }

  /** `DigitOf` is exactly the index the alphabet string defines. */
  lemma AlphabetIndex(ch: char, digit: nat)
    ensures DigitOf(ch) == Some(digit) <==> digit < |ALPHABET| && ALPHABET[digit] == ch
  {
    UpperAt(digit);
    LowerAt(if digit < 26 then 0 else digit - 26);
    NumeralAt(if digit < 52 then 0 else digit - 52);
    if digit < 64 {
      PieceAt(UPPER, LOWER, NUMERALS, "+/", digit);
    }
  }

  // ---------------------------------------------------------------------
  // What a segment means
  // ---------------------------------------------------------------------

  /** The signed number a raw magnitude-and-sign-bit value stands for. */
  function Signed(raw: nat): int {
    if raw % 2 == 1 then -(raw / 2) else raw / 2
  }

  /** Reads one group of digits: its little-endian base 32 value and what follows it. */
  function ReadGroup(s: string): (r: Result<(nat, string), Error>)
    ensures r.Ok? ==> |r.value.1| < |s| && r.value.1 == s[|s| - |r.value.1|..]
  {
    if s == "" then Err(Truncated)
    else match DigitOf(s[0])
      case None => Err(InvalidCharacter(s[0]))
      case Some(digit) =>
        if digit < CONTINUATION then Ok((digit, s[1..]))
        else match ReadGroup(s[1..])
          case Err(e) => Err(e)
          case Ok((high, rest)) => Ok((digit - CONTINUATION + 32 * high, rest))
  }

  function Prepend(front: seq<int>, r: Result<seq<int>, Error>): Result<seq<int>, Error> {
    match r
    case Ok(back) => Ok(front + back)
    case Err(e) => Err(e)
  }

  /** The numbers a segment denotes: group after group. */
  function Decode(s: string): Result<seq<int>, Error>
    decreases |s|
  {
    if s == "" then Ok([])
    else match ReadGroup(s)
      case Err(e) => Err(e)
      case Ok((raw, rest)) => Prepend([Signed(raw)], Decode(rest))
  }

  // ---------------------------------------------------------------------
  // The decoder's loop
  // ---------------------------------------------------------------------

  /** `x << n`. */
  function ShiftLeft(x: nat, n: nat): nat {
    if n == 0 then x else 2 * ShiftLeft(x, n - 1)
  }

  lemma {:induction false} ShiftSum(x: nat, y: nat, n: nat)
    ensures ShiftLeft(x + y, n) == ShiftLeft(x, n) + ShiftLeft(y, n)
  {
    if n > 0 {
      ShiftSum(x, y, n - 1);
    }
  }

  lemma {:induction false} ShiftDouble(x: nat, n: nat)
    ensures ShiftLeft(2 * x, n) == ShiftLeft(x, n + 1)
  {
    if n > 0 {
      ShiftDouble(x, n - 1);
    }
  }

  lemma ShiftBy5(x: nat, n: nat)
    ensures ShiftLeft(32 * x, n) == ShiftLeft(x, n + 5)
  {
    ShiftDouble(16 * x, n);
    ShiftDouble(8 * x, n + 1);
    ShiftDouble(4 * x, n + 2);
    ShiftDouble(2 * x, n + 3);
    ShiftDouble(x, n + 4);
  }

  /** What the loop still owes: the open group, if any, then the rest of the segment. */
  ghost function Remaining(acc: nat, shift: nat, haveBits: bool, s: string): Result<seq<int>, Error> {
    if !haveBits then Decode(s)
    else match ReadGroup(s)
      case Err(e) => Err(e)
      case Ok((raw, rest)) => Prepend([Signed(acc + ShiftLeft(raw, shift))], Decode(rest))
  }

  /** A group that has not started is one with nothing accumulated. */
  lemma OpenGroup(s: string)
    requires s != ""
    ensures Remaining(0, 0, false, s) == Remaining(0, 0, true, s)
  {
  }

  lemma ContinueGroup(acc: nat, shift: nat, digit: nat, s: string)
    requires s != "" && DigitOf(s[0]) == Some(digit) && digit >= CONTINUATION
    ensures Remaining(acc, shift, true, s)
         == Remaining(acc + ShiftLeft(digit % 32, shift), shift + 5, true, s[1..])
  {
    hide Decode, ShiftLeft;
    var group := ReadGroup(s[1..]);
    if group.Ok? {
      var high := group.value.0;
      ShiftSum(digit % 32, 32 * high, shift);
      ShiftBy5(high, shift);
    }
  }

  lemma FinishGroup(acc: nat, shift: nat, digit: nat, s: string)
    requires s != "" && DigitOf(s[0]) == Some(digit) && digit < CONTINUATION
    ensures Remaining(acc, shift, true, s)
         == Prepend([Signed(acc + ShiftLeft(digit % 32, shift))], Decode(s[1..]))
  {
    hide Decode, ShiftLeft;
    assert ReadGroup(s) == Ok((digit, s[1..]));
  }

  lemma PrependPrepend(a: seq<int>, b: seq<int>, r: Result<seq<int>, Error>)
    ensures Prepend(a, Prepend(b, r)) == Prepend(a + b, r)
  {
    if r.Ok? { assert a + (b + r.value) == a + b + r.value; }
  }

  lemma PrependNothing(r: Result<seq<int>, Error>)
    ensures Prepend([], r) == r
  {
    if r.Ok? { assert [] + r.value == r.value; }
  }

  lemma StartStep(s: string)
    ensures Prepend([], Remaining(0, 0, false, s)) == Decode(s)
  {
    PrependNothing(Decode(s));
  }

  /** One turn of the loop keeps what is read so far plus what is still owed. */
  lemma DigitStep(values: seq<int>, acc: nat, shift: nat, haveBits: bool, digit: nat, s: string)
    requires s != "" && DigitOf(s[0]) == Some(digit)
    requires !haveBits ==> acc == 0 && shift == 0
    ensures var before := Prepend(values, Remaining(acc, shift, haveBits, s));
            var acc' := acc + ShiftLeft(digit % 32, shift);
            && (digit >= CONTINUATION ==>
                  before == Prepend(values, Remaining(acc', shift + 5, true, s[1..])))
            && (digit < CONTINUATION ==>
                  before == Prepend(values + [Signed(acc')], Remaining(0, 0, false, s[1..])))
  {
    hide Decode, ShiftLeft, ReadGroup, DigitOf, Signed;
    OpenGroup(s);
    if digit >= CONTINUATION {
      ContinueGroup(acc, shift, digit, s);
    } else {
      FinishGroup(acc, shift, digit, s);
      PrependPrepend(values, [Signed(acc + ShiftLeft(digit % 32, shift))], Decode(s[1..]));
    }
  }

  /** A bad character, or the end of the segment inside a group, is the whole segment's error. */
  lemma StopStep(values: seq<int>, acc: nat, shift: nat, haveBits: bool, s: string)
    ensures s != "" && DigitOf(s[0]).None? ==>
              Prepend(values, Remaining(acc, shift, haveBits, s)) == Err(InvalidCharacter(s[0]))
    ensures s == "" ==>
              Prepend(values, Remaining(acc, shift, haveBits, s)) == (if haveBits then Err(Truncated) else Ok(values))
  {
    assert values + [] == values;
  }

  /** Reads a segment digit by digit with a running accumulator and shift. */
  method DecodeVlq(segment: string) returns (r: Result<seq<int>, Error>)
    ensures r == Decode(segment)
  {
    hide Decode, ReadGroup, Remaining, ShiftLeft, DigitOf, Prepend;
    StartStep(segment);
    var values: seq<int> := [];
    var shift: nat, acc: nat, haveBits := 0, 0, false;
    assert segment[0..] == segment;
    for i := 0 to |segment|
      invariant !haveBits ==> acc == 0 && shift == 0
      invariant Prepend(values, Remaining(acc, shift, haveBits, segment[i..])) == Decode(segment)
    {
      ghost var left := segment[i..];
      assert left[1..] == segment[i + 1..];
      var digit := DigitOf(segment[i]);
      if digit.None? {
        StopStep(values, acc, shift, haveBits, left);
        return Err(InvalidCharacter(segment[i]));
      }
      DigitStep(values, acc, shift, haveBits, digit.value, left);
      haveBits := true;
      acc := acc + ShiftLeft(digit.value % 32, shift);
      if digit.value >= CONTINUATION {
        shift := shift + 5;
      } else {
        var magnitude := acc / 2;
        values := values + [if acc % 2 == 1 then -magnitude else magnitude];
        acc, shift, haveBits := 0, 0, false;
      }
    }
    StopStep(values, acc, shift, haveBits, segment[|segment|..]);
    return if haveBits then Err(Truncated) else Ok(values);
  }

  // ---------------------------------------------------------------------
  // When decoding fails
  // ---------------------------------------------------------------------

  predicate InAlphabet(s: string) {
    forall i :: 0 <= i < |s| ==> DigitOf(s[i]).Some?
  }

  /** The segment stops in the middle of a number. */
  predicate Dangling(s: string) {
    s != "" && DigitOf(s[|s| - 1]).Some? && DigitOf(s[|s| - 1]).value >= CONTINUATION
  }

  predicate FirstInvalid(s: string, i: int) {
    0 <= i < |s| && DigitOf(s[i]).None? && InAlphabet(s[..i])
  }

  /** Outcome of decoding, read off the characters alone. */
  ghost predicate Explains(s: string, r: Result<seq<int>, Error>) {
    match r
    case Ok(_) => InAlphabet(s) && !Dangling(s)
    case Err(Truncated) => InAlphabet(s) && Dangling(s)
    case Err(InvalidCharacter(ch)) => exists i :: FirstInvalid(s, i) && s[i] == ch
  }

  ghost predicate GroupExplained(s: string, r: Result<(nat, string), Error>) {
    match r
    case Ok((_, rest)) =>
      var n := |s| - |rest|;
      0 < n <= |s| && InAlphabet(s[..n]) && DigitOf(s[n - 1]).value < CONTINUATION
    case Err(Truncated) => InAlphabet(s) && (s == "" || Dangling(s))
    case Err(InvalidCharacter(ch)) => exists i :: FirstInvalid(s, i) && s[i] == ch
  }

  lemma GroupExplainedLonger(ch: char, t: string, digit: nat, r: Result<(nat, string), Error>)
    requires DigitOf(ch) == Some(digit) && digit >= CONTINUATION
    requires r.Ok? ==> |r.value.1| < |t|
    requires GroupExplained(t, r)
    ensures match r
      case Err(e) => GroupExplained([ch] + t, Err(e))
      case Ok((high, rest)) => forall raw :: GroupExplained([ch] + t, Ok((raw, rest)))
  {
    var s := [ch] + t;
    match r
    case Ok((_, rest)) =>
      var n := |t| - |rest|;
      assert forall i :: 1 <= i < n + 1 ==> s[i] == t[..n][i - 1];
    case Err(Truncated) =>
      assert forall i :: 1 <= i < |s| ==> s[i] == t[i - 1];
    case Err(InvalidCharacter(bad)) =>
      var i :| FirstInvalid(t, i) && t[i] == bad;
      assert forall k :: 1 <= k < i + 1 ==> s[k] == t[..i][k - 1];
      assert s[i + 1] == t[i];
      assert FirstInvalid(s, i + 1);
  }

  lemma {:induction false} ReadGroupExplained(s: string)
    ensures GroupExplained(s, ReadGroup(s))
  {
    if s != "" && DigitOf(s[0]).None? {
      assert FirstInvalid(s, 0);
    } else if s != "" && DigitOf(s[0]).value >= CONTINUATION {
      ReadGroupExplained(s[1..]);
      GroupExplainedLonger(s[0], s[1..], DigitOf(s[0]).value, ReadGroup(s[1..]));
      assert [s[0]] + s[1..] == s;
    }
  }

  lemma ExplainedAfterGroup(group: string, rest: string, first: int, r: Result<seq<int>, Error>)
    requires InAlphabet(group) && group != "" && DigitOf(group[|group| - 1]).value < CONTINUATION
    requires Explains(rest, r)
    ensures Explains(group + rest, Prepend([first], r))
  {
    var s := group + rest;
    var n := |group|;
    if InAlphabet(rest) {
      assert forall i :: n <= i < |s| ==> s[i] == rest[i - n];
    } else if r.Err? && r.error.InvalidCharacter? {
      var i :| FirstInvalid(rest, i) && rest[i] == r.error.ch;
      assert forall k :: n <= k < n + i ==> s[k] == rest[..i][k - n];
      assert s[n + i] == rest[i];
      assert FirstInvalid(s, n + i);
    }
  }

  /**
   Decoding fails exactly when the segment holds a character outside the
   alphabet, the error naming the first one, or else ends on a continuation digit.
   */
  lemma {:induction false} DecodeExplained(s: string)
    ensures Explains(s, Decode(s))
    decreases |s|
  {
    ReadGroupExplained(s);
    if s != "" && ReadGroup(s).Ok? {
      var (raw, rest) := ReadGroup(s).value;
      var n := |s| - |rest|;
      DecodeExplained(rest);
      ExplainedAfterGroup(s[..n], rest, Signed(raw), Decode(rest));
      assert s[..n] + rest == s;
    }
  }

  lemma DecodeFailsIff(s: string)
    ensures Decode(s).Err? <==> !InAlphabet(s) || Dangling(s)
    ensures Decode(s) == Err(Truncated) <==> InAlphabet(s) && Dangling(s)
  {
    DecodeExplained(s);
    if Decode(s).Err? && Decode(s).error.InvalidCharacter? {
      var i :| FirstInvalid(s, i) && s[i] == Decode(s).error.ch;
    }
  }

  lemma {:induction false} ReadGroupConcat(a: string, b: string)
    requires ReadGroup(a).Ok?
    ensures ReadGroup(a + b) == Ok((ReadGroup(a).value.0, ReadGroup(a).value.1 + b))
  {
    assert (a + b)[1..] == a[1..] + b;
    if DigitOf(a[0]).value >= CONTINUATION {
      ReadGroupConcat(a[1..], b);
    }
  }

  /** Complete segments concatenate: the second decodes as if it stood alone. */
  lemma {:induction false} DecodeConcat(a: string, b: string)
    requires Decode(a).Ok?
    ensures Decode(a + b) == Prepend(Decode(a).value, Decode(b))
    decreases |a|
  {
    if a == "" {
      assert a + b == b;
      PrependNothing(Decode(b));
    } else {
      ReadGroupConcat(a, b);
      var (raw, rest) := ReadGroup(a).value;
      DecodeConcat(rest, b);
      PrependPrepend([Signed(raw)], Decode(rest).value, Decode(b));
    }
  }

  // ---------------------------------------------------------------------
  // The encoder the format specifies
  // ---------------------------------------------------------------------

  function Raw(n: int): nat {
    if n < 0 then -2 * n + 1 else 2 * n
  }

  function EncodeRaw(raw: nat): string {
    if raw < 32 then [CharOf(raw)]
    else [CharOf(raw % 32 + CONTINUATION)] + EncodeRaw(raw / 32)
  }

  function Encode(values: seq<int>): string {
    if values == [] then "" else EncodeRaw(Raw(values[0])) + Encode(values[1..])
  }

  lemma {:induction false} ReadEncodedRaw(raw: nat, rest: string)
    ensures ReadGroup(EncodeRaw(raw) + rest) == Ok((raw, rest))
  {
    var s := EncodeRaw(raw) + rest;
    if raw < 32 {
      assert s[1..] == rest;
    } else {
      ReadEncodedRaw(raw / 32, rest);
      assert s[1..] == EncodeRaw(raw / 32) + rest;
      assert raw % 32 + 32 * (raw / 32) == raw;
    }
  }

  lemma SignedRaw(n: int)
    ensures Signed(Raw(n)) == n
  {
  }

  /** The decoder inverts the encoder on every list of integers of any size. */
  lemma {:induction false} DecodeEncode(values: seq<int>)
    ensures Decode(Encode(values)) == Ok(values)
  {
    hide Signed, Raw, EncodeRaw;
    if values != [] {
      DecodeEncode(values[1..]);
      ReadEncodedRaw(Raw(values[0]), Encode(values[1..]));
      SignedRaw(values[0]);
      assert [values[0]] + values[1..] == values;
    }
  }

  /** An encoded list uses alphabet characters only, and is empty only for the empty list. */
  lemma EncodeInAlphabet(values: seq<int>)
    ensures InAlphabet(Encode(values)) && !Dangling(Encode(values))
    ensures Encode(values) == "" <==> values == []
  {
    DecodeEncode(values);
    DecodeFailsIff(Encode(values));
  }

  /** The format on known numbers: sign in the lowest bit, five bits a digit, low digits first. */
  lemma KnownEncodings()
    ensures Encode([0]) == "A" && Encode([1]) == "C" && Encode([-1]) == "D" && Encode([15]) == "e"
    ensures Encode([16]) == "gB" && Encode([-16]) == "hB" && Encode([1000]) == "w+B"
  {
    assert EncodeRaw(0) == "A" && EncodeRaw(2) == "C" && EncodeRaw(3) == "D" && EncodeRaw(30) == "e";
    assert EncodeRaw(1) == "B" && EncodeRaw(32) == "gB" && EncodeRaw(33) == "hB";
    assert EncodeRaw(62) == "+B" && EncodeRaw(2000) == "w+B";
    OneEncoded(0);
    OneEncoded(1);
    OneEncoded(-1);
    OneEncoded(15);
    OneEncoded(16);
    OneEncoded(-16);
    OneEncoded(1000);
  }

  lemma OneEncoded(n: int)
    ensures Encode([n]) == EncodeRaw(Raw(n))
  {
    hide EncodeRaw, Raw;
    assert [n][1..] == [];
    assert EncodeRaw(Raw(n)) + "" == EncodeRaw(Raw(n));
  }
}
