/** The few JavaScript built-in semantics the core relies on: truthiness of
    optional numbers and strings, and `String.prototype.split` with a
    one-character separator. */
module Js {
  import opened Wrappers

  /** `!!n` for a value of type `number | undefined`: `undefined` and `0` are
      falsy, every other integer is truthy (NaN is not modelled). */
  predicate TruthyNumber(n: Option<int>) {
    n.Some? && n.value != 0
  }

  /** `!!s` for a value of type `string | undefined`: `undefined` and `""`
      are falsy. */
  predicate TruthyString(s: Option<string>) {
    s.Some? && s.value != ""
  }

  /** `s.split(sep)`: the maximal separator-free pieces of `s`, in order.
      An empty string splits into one empty piece, and two adjacent
      separators produce an empty piece between them. */
  function Split(s: string, sep: char): (pieces: seq<string>)
    ensures |pieces| >= 1
    ensures forall i :: 0 <= i < |pieces| ==> sep !in pieces[i]
    ensures pieces[0] <= s
    ensures |pieces| == 1 <==> sep !in s
    ensures |pieces| == 1 ==> pieces[0] == s
    ensures |pieces| > 1 ==> |pieces[0]| < |s| && s[|pieces[0]|] == sep
    decreases |s|
  {
    if |s| == 0 then [""]
    else
      var rest := Split(s[1..], sep);
      if s[0] == sep then [""] + rest
      else
        assert s == [s[0]] + s[1..];
        [[s[0]] + rest[0]] + rest[1..]
  }

  /** `pieces.join(sep)`, the inverse of `Split`. */
  function Join(pieces: seq<string>, sep: char): string
    requires |pieces| >= 1
    decreases |pieces|
  {
    if |pieces| == 1 then pieces[0]
    else pieces[0] + [sep] + Join(pieces[1..], sep)
  }

  /** Splitting a string that starts with a separator-free piece followed by
      the separator yields that piece, then the pieces of the remainder. */
  lemma {:induction false} SplitAfterPiece(piece: string, sep: char, rest: string)
    requires sep !in piece
    ensures Split(piece + [sep] + rest, sep) == [piece] + Split(rest, sep)
    decreases |piece|
  {
    var s := piece + [sep] + rest;
    if |piece| == 0 {
      assert s == [sep] + rest;
      assert s[1..] == rest;
    } else {
      assert s[0] == piece[0];
      assert s[1..] == piece[1..] + [sep] + rest;
      SplitAfterPiece(piece[1..], sep, rest);
      assert [piece[0]] + piece[1..] == piece;
    }
  }

  /** Joining the pieces of a split gives back the original string. */
  lemma {:induction false} JoinSplit(s: string, sep: char)
    ensures Join(Split(s, sep), sep) == s
    decreases |s|
  {
    var pieces := Split(s, sep);
    if |pieces| > 1 {
      var k := |pieces[0]|;
      assert s == s[..k] + [sep] + s[k + 1..];
      assert s[..k] == pieces[0];
      SplitAfterPiece(pieces[0], sep, s[k + 1..]);
      assert pieces[1..] == Split(s[k + 1..], sep);
      JoinSplit(s[k + 1..], sep);
    }
  }

  /** Splitting a join of separator-free pieces gives back those pieces. */
  lemma {:induction false} SplitJoin(pieces: seq<string>, sep: char)
    requires |pieces| >= 1
    requires forall i :: 0 <= i < |pieces| ==> sep !in pieces[i]
    ensures Split(Join(pieces, sep), sep) == pieces
    decreases |pieces|
  {
    if |pieces| > 1 {
      SplitJoin(pieces[1..], sep);
      SplitAfterPiece(pieces[0], sep, Join(pieces[1..], sep));
      assert [pieces[0]] + pieces[1..] == pieces;
    }
  }
}
