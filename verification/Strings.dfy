/** Splitting and joining on a separator, and the order on strings. */
module Strings {

  predicate Free(s: string, sep: char) {
    forall i :: 0 <= i < |s| ==> s[i] != sep
  }

  /** The pieces of `s` between occurrences of `sep`: always at least one piece. */
  function Split(s: string, sep: char): (parts: seq<string>)
    ensures |parts| > 0
    ensures forall i :: 0 <= i < |parts| ==> Free(parts[i], sep)
  {
    if s == "" then [""]
    else
      var rest := Split(s[1..], sep);
      if s[0] == sep then [""] + rest
      else [[s[0]] + rest[0]] + rest[1..]
  }

  function Join(parts: seq<string>, sep: char): string {
    if |parts| == 0 then ""
    else if |parts| == 1 then parts[0]
    else parts[0] + [sep] + Join(parts[1..], sep)
  }

  lemma {:induction false} SplitFree(s: string, sep: char)
    requires Free(s, sep)
    ensures Split(s, sep) == [s]
  {
    if s != "" {
      SplitFree(s[1..], sep);
      assert [s[0]] + s[1..] == s;
    }
  }

  /** One more piece than there are separators. */
  lemma {:induction false} SplitCount(s: string, sep: char)
    ensures |Split(s, sep)| == 1 + multiset(s)[sep]
  {
    if s != "" {
      SplitCount(s[1..], sep);
      assert s == [s[0]] + s[1..];
    }
  }

  /** Text without the separator extends the first piece. */
  lemma {:induction false} SplitFirst(front: string, rest: string, sep: char)
    requires Free(front, sep)
    ensures Split(front + rest, sep)[0] == front + Split(rest, sep)[0]
  {
    if front == "" {
      assert front + rest == rest;
    } else {
      SplitFirst(front[1..], rest, sep);
      assert (front + rest)[1..] == front[1..] + rest;
      assert [front[0]] + front[1..] == front;
    }
  }

  /** What follows the last separator is the last piece. */
  lemma {:induction false} SplitLast(front: string, piece: string, sep: char)
    requires Free(piece, sep)
    ensures var parts := Split(front + [sep] + piece, sep);
            |parts| > 1 && parts[|parts| - 1] == piece
  {
    var whole := front + [sep] + piece;
    if front == "" {
      assert whole[1..] == piece;
      SplitFree(piece, sep);
    } else {
      SplitLast(front[1..], piece, sep);
      assert whole[1..] == front[1..] + [sep] + piece;
    }
  }

  lemma {:induction false} SplitAfterPiece(piece: string, sep: char, rest: string)
    requires Free(piece, sep)
    ensures Split(piece + [sep] + rest, sep) == [piece] + Split(rest, sep)
  {
    var whole := piece + [sep] + rest;
    if piece == "" {
      assert whole[1..] == rest;
    } else {
      SplitAfterPiece(piece[1..], sep, rest);
      assert whole[1..] == piece[1..] + [sep] + rest;
      assert [piece[0]] + piece[1..] == piece;
    }
  }

  /** Splitting undoes joining whenever no piece holds the separator. */
  lemma {:induction false} SplitJoin(parts: seq<string>, sep: char)
    requires |parts| > 0
    requires forall i :: 0 <= i < |parts| ==> Free(parts[i], sep)
    ensures Split(Join(parts, sep), sep) == parts
  {
    if |parts| == 1 {
      SplitFree(parts[0], sep);
    } else {
      SplitJoin(parts[1..], sep);
      SplitAfterPiece(parts[0], sep, Join(parts[1..], sep));
    }
  }

  /** Joining undoes splitting on every string. */
  lemma {:induction false} JoinSplit(s: string, sep: char)
    ensures Join(Split(s, sep), sep) == s
  {
    if s != "" {
      JoinSplit(s[1..], sep);
      var rest := Split(s[1..], sep);
      var parts := Split(s, sep);
      if s[0] == sep {
        assert parts[1..] == rest;
      } else {
        assert parts[0] == [s[0]] + rest[0] && parts[1..] == rest[1..];
      }
    }
  }

  /** A joined string is free of every character its pieces and its separator are free of. */
  lemma {:induction false} JoinFree(parts: seq<string>, sep: char, other: char)
    requires other != sep
    requires forall i :: 0 <= i < |parts| ==> Free(parts[i], other)
    ensures Free(Join(parts, sep), other)
  {
    if |parts| > 1 {
      JoinFree(parts[1..], sep, other);
    }
  }

  /** Code-point lexicographic order. */
  predicate LexLeq(a: string, b: string) {
    a == "" || (b != "" && (a[0] < b[0] || (a[0] == b[0] && LexLeq(a[1..], b[1..]))))
  }

  lemma {:induction false} LexTotal(a: string, b: string)
    ensures LexLeq(a, b) || LexLeq(b, a)
  {
    if a != "" && b != "" {
      LexTotal(a[1..], b[1..]);
    }
  }

  lemma {:induction false} LexAntisymmetric(a: string, b: string)
    requires LexLeq(a, b) && LexLeq(b, a)
    ensures a == b
  {
    if a != "" && b != "" {
      LexAntisymmetric(a[1..], b[1..]);
      assert a == [a[0]] + a[1..] && b == [b[0]] + b[1..];
    }
  }

  lemma {:induction false} LexTransitive(a: string, b: string, c: string)
    requires LexLeq(a, b) && LexLeq(b, c)
    ensures LexLeq(a, c)
  {
    if a != "" && b != "" && c != "" && a[0] == b[0] == c[0] {
      LexTransitive(a[1..], b[1..], c[1..]);
    }
  }
}
