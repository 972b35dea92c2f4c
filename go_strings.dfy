/**
 * Go's strings.Split for a one-character separator, and strings.Join,
 * its inverse.
 */
module GoStrings {

  /** Number of occurrences of `sep` in `s`. */
  function Count(s: string, sep: char): nat
  {
    if s == [] then 0 else (if s[0] == sep then 1 else 0) + Count(s[1..], sep)
  }

  /** strings.Join(parts, string(sep)). */
  function Join(parts: seq<string>, sep: char): string
  {
    if |parts| == 0 then ""
    else if |parts| == 1 then parts[0]
    else parts[0] + [sep] + Join(parts[1..], sep)
  }

  /**
   * strings.Split(s, string(sep)): the pieces of `s` between separators,
   * in order; one more piece than there are separators, so "" gives [""].
   */
  function Split(s: string, sep: char): (parts: seq<string>)
    ensures |parts| == Count(s, sep) + 1
    ensures forall i | 0 <= i < |parts| :: sep !in parts[i]
    ensures Join(parts, sep) == s
  {
    if s == [] then [""]
    else
      var rest := Split(s[1..], sep);
      if s[0] == sep then [""] + rest
      else [[s[0]] + rest[0]] + rest[1..]
  }

  /** Splitting a join of separator-free pieces gives the pieces back. */
  lemma {:induction false} SplitJoin(parts: seq<string>, sep: char)
    requires |parts| >= 1
    requires forall i | 0 <= i < |parts| :: sep !in parts[i]
    ensures Split(Join(parts, sep), sep) == parts
  {
    if |parts| == 1 {
      SplitPiece(parts[0], [], sep);
    } else {
      SplitJoin(parts[1..], sep);
      assert Split([sep] + Join(parts[1..], sep), sep) == [""] + parts[1..];
      SplitPiece(parts[0], [sep] + Join(parts[1..], sep), sep);
      assert Join(parts, sep) == parts[0] + ([sep] + Join(parts[1..], sep));
      assert parts[0] + "" == parts[0];
      assert [parts[0]] + parts[1..] == parts;
    }
  }

  /** A separator-free prefix glues onto the first piece of what follows. */
  lemma {:induction false} SplitPiece(piece: string, tail: string, sep: char)
    requires sep !in piece
    ensures Split(piece + tail, sep) == [piece + Split(tail, sep)[0]] + Split(tail, sep)[1..]
    decreases |piece|
  {
    if piece != [] {
      SplitPiece(piece[1..], tail, sep);
      assert (piece + tail)[1..] == piece[1..] + tail;
      assert [piece[0]] + (piece[1..] + Split(tail, sep)[0]) == piece + Split(tail, sep)[0];
    } else {
      var rest := Split(tail, sep);
      assert piece + tail == tail && piece + rest[0] == rest[0];
      assert rest == [rest[0]] + rest[1..];
    }
  }
}
