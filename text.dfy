/** Python's `str.join` and, as its partner, `str.split` on a one-character separator. */
module Text {

  /** `sep.join(parts)`: the parts in their order, exactly one `sep` between two neighbours,
      nothing before the first part and nothing after the last. */
  function Join(sep: string, parts: seq<string>): (r: string)
    ensures |r| == TotalLength(parts) + if |parts| == 0 then 0 else (|parts| - 1) * |sep|
  {
    if |parts| == 0 then ""
    else if |parts| == 1 then parts[0]
    else parts[0] + sep + Join(sep, parts[1..])
  }

  /** The summed lengths of the parts. */
  function TotalLength(parts: seq<string>): nat
  {
    if |parts| == 0 then 0 else |parts[0]| + TotalLength(parts[1..])
  }

  /** `s.split(c)` for a one-character separator `c`: the maximal runs of characters between
      occurrences of `c`; the empty string splits into one empty piece. */
  function Split(c: char, s: string): (r: seq<string>)
    ensures |r| >= 1
    ensures forall k :: 0 <= k < |r| ==> c !in r[k]
  {
    if |s| == 0 then [""]
    else
      var rest := Split(c, s[1..]);
      if s[0] == c then [""] + rest
      else [[s[0]] + rest[0]] + rest[1..]
  }

  /** Joining two non-empty runs of parts puts one separator between the two joins. */
  lemma {:induction false} JoinConcat(sep: string, a: seq<string>, b: seq<string>)
    requires |a| >= 1 && |b| >= 1
    ensures Join(sep, a + b) == Join(sep, a) + sep + Join(sep, b)
  {
    if |a| == 1 {
      assert (a + b)[1..] == b;
    } else {
      assert (a + b)[1..] == a[1..] + b;
      JoinConcat(sep, a[1..], b);
    }
  }

  /** Appending one part to a non-empty list adds exactly one separator and that part. */
  lemma JoinAppend(sep: string, parts: seq<string>, p: string)
    requires |parts| >= 1
    ensures Join(sep, parts + [p]) == Join(sep, parts) + sep + p
  {
    JoinConcat(sep, parts, [p]);
  }

  /** Splitting is a left inverse of joining: a non-empty list of parts none of which contains
      the separator is recovered from its join. */
  lemma {:induction false} SplitJoin(c: char, parts: seq<string>)
    requires |parts| >= 1
    requires forall k :: 0 <= k < |parts| ==> c !in parts[k]
    ensures Split(c, Join([c], parts)) == parts
  {
    if |parts| == 1 {
      SplitNoSeparator(c, parts[0]);
    } else {
      SplitJoin(c, parts[1..]);
      SplitAfterPiece(c, parts[0], Join([c], parts[1..]));
      assert [parts[0]] + parts[1..] == parts;
    }
  }

  /** Joining is a left inverse of splitting: every string is rebuilt from its pieces. */
  lemma {:induction false} JoinSplit(c: char, s: string)
    ensures Join([c], Split(c, s)) == s
  {
    if |s| > 0 {
      var rest := Split(c, s[1..]);
      JoinSplit(c, s[1..]);
      if s[0] == c {
        assert ([""] + rest)[1..] == rest;
      } else {
        var r := [[s[0]] + rest[0]] + rest[1..];
        if |rest| == 1 {
          assert r == [[s[0]] + rest[0]];
        } else {
          assert r[1..] == rest[1..];
          assert Join([c], rest) == rest[0] + [c] + Join([c], rest[1..]);
        }
        assert s == [s[0]] + s[1..];
      }
    }
  }

  /** A string without the separator splits into itself alone. */
  lemma {:induction false} SplitNoSeparator(c: char, s: string)
    requires c !in s
    ensures Split(c, s) == [s]
  {
    if |s| > 0 {
      assert c !in s[1..] by {
        forall k | 0 <= k < |s[1..]| ensures s[1..][k] != c { assert s[1..][k] == s[k + 1]; }
      }
      SplitNoSeparator(c, s[1..]);
      assert [s[0]] + s[1..] == s;
    }
  }

  /** A separator-free piece followed by the separator becomes the first piece of the split. */
  lemma {:induction false} SplitAfterPiece(c: char, x: string, y: string)
    requires c !in x
    ensures Split(c, x + [c] + y) == [x] + Split(c, y)
  {
    if |x| == 0 {
      assert x + [c] + y == [c] + y;
      assert ([c] + y)[1..] == y;
    } else {
      assert (x + [c] + y)[1..] == x[1..] + [c] + y;
      assert c !in x[1..] by {
        forall k | 0 <= k < |x[1..]| ensures x[1..][k] != c { assert x[1..][k] == x[k + 1]; }
      }
      SplitAfterPiece(c, x[1..], y);
      assert [x[0]] + x[1..] == x;
    }
  }
}
