/**
 * The string handling the resolver applies to `$ref` values: `split('/')`
 * and `pop()`. As in the program, there is no `~0`/`~1` unescaping, so this
 * is plain splitting rather than the JSON Pointer decoding of section 4 of
 * RFC 6901.
 */
module Pointer {
  import opened Wrappers

  const Slash: char := '/'

  /**
   * `s.split(sep)` for a one-character separator: the maximal separator-free
   * pieces between separators, so `k` separators give `k + 1` pieces and the
   * empty string gives `[""]`.
   */
  function Split(s: string, sep: char): (parts: seq<string>)
    ensures |parts| >= 1
    ensures forall i :: 0 <= i < |parts| ==> sep !in parts[i]
    decreases |s|
  {
    if |s| == 0 then [""]
    else
      var rest := Split(s[1..], sep);
      if s[0] == sep then [""] + rest
      else [[s[0]] + rest[0]] + rest[1..]
  }

  /** The number of occurrences of `c` in `s`. */
  function Count(s: string, c: char): nat
    decreases |s|
  {
    if |s| == 0 then 0 else (if s[0] == c then 1 else 0) + Count(s[1..], c)
  }

  /** `k` separators give `k + 1` pieces. */
  lemma {:induction false} SplitCount(s: string, sep: char)
    ensures |Split(s, sep)| == Count(s, sep) + 1
    decreases |s|
  {
    if |s| > 0 {
      SplitCount(s[1..], sep);
    }
  }

  /** `parts.join(sep)`: the inverse of `Split`. */
  function Join(parts: seq<string>, sep: char): string
    requires |parts| >= 1
    decreases |parts|
  {
    if |parts| == 1 then parts[0] else parts[0] + [sep] + Join(parts[1..], sep)
  }

  /** `s.split('/').pop()`: the last piece, which always exists. */
  function LastSegment(s: string): (last: string)
    ensures Slash !in last
  {
    var parts := Split(s, Slash);
    parts[|parts| - 1]
  }

  /**
   * The last piece is the separator-free suffix after the last separator:
   * the string ends with it, and the character before it, if any, is a
   * separator.
   */
  lemma {:induction false} LastSegmentIsSuffix(s: string)
    ensures EndsWithPiece(s, LastSegment(s), Slash)
  {
    var parts := Split(s, Slash);
    var last := parts[|parts| - 1];
    assert Join(parts, Slash) == s by { JoinSplit(s, Slash); }
    assert EndsWithPiece(Join(parts, Slash), last, Slash) by { JoinLast(parts, Slash); }
    assert LastSegment(s) == last;
  }

  /** `s.split('/')[i]`: the i-th piece, or `undefined` past the end. */
  function Segment(s: string, i: nat): (seg: Option<string>)
    ensures seg.Some? <==> i <= Count(s, Slash)
    ensures seg.Some? ==> Slash !in seg.value
  {
    var parts := Split(s, Slash);
    SplitCount(s, Slash);
    if i < |parts| then Some(parts[i]) else None
  }

  /** Of a string built by joining separator-free pieces, piece `i` is exactly the i-th of them. */
  lemma {:induction false} SegmentOfJoin(parts: seq<string>, i: nat)
    requires |parts| >= 1 && i < |parts|
    requires forall k :: 0 <= k < |parts| ==> Slash !in parts[k]
    ensures Segment(Join(parts, Slash), i) == Some(parts[i])
  {
    SplitJoin(parts, Slash);
  }

  /** Splitting then joining gives back the original string. */
  lemma {:induction false} JoinSplit(s: string, sep: char)
    ensures Join(Split(s, sep), sep) == s
    decreases |s|
  {
    if |s| > 0 {
      var rest := Split(s[1..], sep);
      JoinSplit(s[1..], sep);
      if s[0] == sep {
        assert Split(s, sep) == [""] + rest;
        assert ([""] + rest)[1..] == rest;
      } else {
        var parts := Split(s, sep);
        assert parts == [[s[0]] + rest[0]] + rest[1..];
        if |rest| == 1 {
          assert parts == [[s[0]] + rest[0]];
        } else {
          assert parts[1..] == rest[1..];
          assert Join(rest, sep) == rest[0] + [sep] + Join(rest[1..], sep);
        }
      }
      assert s == [s[0]] + s[1..];
    }
  }

  /** Joining separator-free pieces then splitting gives back the pieces. */
  lemma {:induction false} SplitJoin(parts: seq<string>, sep: char)
    requires |parts| >= 1
    requires forall i :: 0 <= i < |parts| ==> sep !in parts[i]
    ensures Split(Join(parts, sep), sep) == parts
    decreases |parts|
  {
    if |parts| == 1 {
      SplitPlain(parts[0], sep);
    } else {
      SplitJoin(parts[1..], sep);
      SplitConcat(parts[0], Join(parts[1..], sep), sep);
      SplitPlain(parts[0], sep);
      assert parts == [parts[0]] + parts[1..];
    }
  }

  /** A separator-free string is one piece. */
  lemma {:induction false} SplitPlain(a: string, sep: char)
    requires sep !in a
    ensures Split(a, sep) == [a]
    decreases |a|
  {
    if |a| > 0 {
      assert sep !in a[1..] by {
        forall k | 0 <= k < |a[1..]| ensures a[1..][k] != sep {
          assert a[1..][k] == a[k + 1];
        }
      }
      SplitPlain(a[1..], sep);
      assert [a[0]] + a[1..] == a;
    }
  }

  /** Splitting distributes over a separator: the pieces of each side, side by side. */
  lemma {:induction false} SplitConcat(a: string, b: string, sep: char)
    ensures Split(a + [sep] + b, sep) == Split(a, sep) + Split(b, sep)
    decreases |a|
  {
    var s := a + [sep] + b;
    if |a| == 0 {
      assert s == [sep] + b;
      SplitCons(sep, b, sep);
    } else {
      assert s == [a[0]] + (a[1..] + [sep] + b);
      assert a == [a[0]] + a[1..];
      SplitConcat(a[1..], b, sep);
      SplitCons(a[0], a[1..] + [sep] + b, sep);
      SplitCons(a[0], a[1..], sep);
      SplitConsOfConcat(a[0], Split(a[1..], sep), Split(b, sep), sep);
    }
  }

  /** A separator-free leading piece comes off as the first part. */
  lemma SplitLeading(piece: string, rest: string, sep: char)
    requires sep !in piece
    ensures Split(piece + [sep] + rest, sep) == [piece] + Split(rest, sep)
  {
    SplitConcat(piece, rest, sep);
    SplitPlain(piece, sep);
  }

  /** Three elements consed one by one onto `rest`. */
  lemma ThreeInFront<T>(a: T, b: T, c: T, rest: seq<T>)
    ensures [a] + ([b] + ([c] + rest)) == [a, b, c] + rest
  {
  }

  /** Four pieces joined left to right, regrouped from the right. */
  lemma Regroup<T>(a: seq<T>, b: seq<T>, c: seq<T>, d: seq<T>, sep: T)
    ensures a + [sep] + b + [sep] + c + [sep] + d == a + [sep] + (b + [sep] + (c + [sep] + d))
  {
  }

  /** Splitting a string with one more leading character. */
  lemma SplitCons(c: char, t: string, sep: char)
    ensures var rest := Split(t, sep);
            Split([c] + t, sep) == if c == sep then [""] + rest else [[c] + rest[0]] + rest[1..]
  {
    assert ([c] + t)[1..] == t;
  }

  /** The leading-character step of `Split` commutes with appending more pieces. */
  lemma SplitConsOfConcat(c: char, ra: seq<string>, rb: seq<string>, sep: char)
    requires |ra| >= 1
    ensures (if c == sep then [""] + (ra + rb) else [[c] + (ra + rb)[0]] + (ra + rb)[1..])
         == (if c == sep then [""] + ra else [[c] + ra[0]] + ra[1..]) + rb
  {
    if c != sep {
      assert (ra + rb)[1..] == ra[1..] + rb;
    }
  }

  /** A string ends with its last piece, preceded by a separator when there are several. */
  predicate EndsWithPiece(s: string, last: string, sep: char)
  {
    |last| <= |s| && s[|s| - |last|..] == last && (|last| == |s| || s[|s| - |last| - 1] == sep)
  }

  /** Joining ends with the last piece, preceded by a separator when there are several. */
  lemma {:induction false} JoinLast(parts: seq<string>, sep: char)
    requires |parts| >= 1
    ensures EndsWithPiece(Join(parts, sep), parts[|parts| - 1], sep)
    decreases |parts|
  {
    if |parts| > 1 {
      JoinLast(parts[1..], sep);
      var last := parts[|parts| - 1];
      assert parts[1..][|parts[1..]| - 1] == last;
      var rest := Join(parts[1..], sep);
      var j := Join(parts, sep);
      assert j == (parts[0] + [sep]) + rest;
      var off := |parts[0]| + 1;
      assert j[off..] == rest;
      assert j[|j| - |last|..] == rest[|rest| - |last|..];
      if |last| == |rest| {
        assert j[|j| - |last| - 1] == sep;
      } else {
        assert j[|j| - |last| - 1] == rest[|rest| - |last| - 1];
      }
    }
  }
}
