/**
 * The two string operations of the ECMAScript library that the script relies on:
 * `String.prototype.startsWith` and `String.prototype.split` with a one-character
 * separator. `Join` undoes `Split`, used to state what the pieces are.
 */
module JsString {

  /** `s.startsWith(prefix)` */
  predicate StartsWith(s: string, prefix: string) {
    prefix <= s
  }

  /**
   * `s.split(sep)` for a single-character separator: the maximal runs of
   * characters between separators, with an empty piece for every separator at
   * either end or next to another one.
   */
  function Split(s: string, sep: char): (parts: seq<string>)
    ensures |parts| >= 1
  {
    if s == [] then [[]]
    else
      var rest := Split(s[1..], sep);
      if s[0] == sep then [[]] + rest
      else [[s[0]] + rest[0]] + rest[1..]
  }

  /** `parts.join(sep)` */
  function Join(parts: seq<string>, sep: char): string
    requires |parts| >= 1
  {
    if |parts| == 1 then parts[0] else parts[0] + [sep] + Join(parts[1..], sep)
  }

  /** Joining the pieces back with the separator gives the original string. */
  lemma {:induction false} SplitJoin(s: string, sep: char)
    ensures Join(Split(s, sep), sep) == s
  {
    if s != [] {
      var rest := Split(s[1..], sep);
      SplitJoin(s[1..], sep);
      if s[0] == sep {
        assert ([[]] + rest)[1..] == rest;
      } else if |rest| > 1 {
        var parts := [[s[0]] + rest[0]] + rest[1..];
        assert parts[1..] == rest[1..];
        assert Join(rest, sep) == rest[0] + [sep] + Join(rest[1..], sep);
      }
    }
  }

  /** No piece contains the separator. */
  lemma {:induction false} SplitPiecesAreSeparatorFree(s: string, sep: char, k: nat)
    requires k < |Split(s, sep)|
    ensures sep !in Split(s, sep)[k]
  {
    if s != [] {
      var rest := Split(s[1..], sep);
      if s[0] == sep {
        if k > 0 {
          SplitPiecesAreSeparatorFree(s[1..], sep, k - 1);
        }
      } else if k == 0 {
        SplitPiecesAreSeparatorFree(s[1..], sep, 0);
      } else {
        SplitPiecesAreSeparatorFree(s[1..], sep, k);
      }
    }
  }

  /** A string without the separator is one piece. */
  lemma {:induction false} SplitWithoutSeparator(p: string, sep: char)
    requires sep !in p
    ensures Split(p, sep) == [p]
  {
    if p != [] {
      SplitWithoutSeparator(p[1..], sep);
      assert [p[0]] + p[1..] == p;
    }
  }

  /** The first piece is everything before the first separator. */
  lemma {:induction false} SplitAtFirstSeparator(p: string, sep: char, t: string)
    requires sep !in p
    ensures Split(p + [sep] + t, sep) == [p] + Split(t, sep)
  {
    var s := p + [sep] + t;
    if p == [] {
      assert s[1..] == t;
    } else {
      assert s[1..] == p[1..] + [sep] + t;
      SplitAtFirstSeparator(p[1..], sep, t);
      assert [p[0]] + p[1..] == p;
    }
  }

  /**
   * The first piece is the longest separator-free prefix: it is a prefix of
   * `s` and is followed either by the end of `s` or by a separator.
   */
  lemma FirstPieceIsLongestPrefix(s: string, sep: char)
    ensures sep !in Split(s, sep)[0]
    ensures Split(s, sep)[0] <= s
    ensures |Split(s, sep)[0]| == |s| || s[|Split(s, sep)[0]|] == sep
  {
    var parts := Split(s, sep);
    SplitPiecesAreSeparatorFree(s, sep, 0);
    SplitJoin(s, sep);
    if |parts| > 1 {
      assert s == parts[0] + ([sep] + Join(parts[1..], sep));
    }
  }

  /**
   * Conversely, a separator-free prefix followed by the end or a separator
   * is the first piece.
   */
  lemma FirstPieceUnique(v: string, rest: string, sep: char)
    requires sep !in v
    requires rest == [] || rest[0] == sep
    ensures Split(v + rest, sep)[0] == v
  {
    if rest == [] {
      assert v + rest == v;
      SplitWithoutSeparator(v, sep);
    } else {
      assert v + rest == v + [sep] + rest[1..];
      SplitAtFirstSeparator(v, sep, rest[1..]);
    }
  }
}
