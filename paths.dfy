/**
  Module paths as strings of '/'-separated segments, split the way
  JavaScript's `String.prototype.split('/')` splits them: the empty string
  gives one empty segment, and every separator starts a new segment, so
  leading, trailing and doubled separators give empty segments.
 */
module Paths {

  const Separator: char := '/'

  /** Number of separators in `s`. */
  function Separators(s: string): nat
    decreases |s|
  {
    if s == [] then 0 else (if s[0] == Separator then 1 else 0) + Separators(s[1..])
  }

  /** `s.split('/')`: one segment more than there are separators, none containing one. */
  function Split(s: string): (parts: seq<string>)
    ensures |parts| == Separators(s) + 1
    ensures forall i :: 0 <= i < |parts| ==> Separator !in parts[i]
    decreases |s|
  {
    if s == [] then [""]
    else
      assert s == [s[0]] + s[1..];
      var rest := Split(s[1..]);
      if s[0] == Separator then [""] + rest
      else [[s[0]] + rest[0]] + rest[1..]
  }

  /** `parts.join('/')`. */
  function Join(parts: seq<string>): string
    requires |parts| >= 1
  {
    if |parts| == 1 then parts[0] else parts[0] + [Separator] + Join(parts[1..])
  }

  /** `path.split('/').pop()`: the final segment. */
  function LastSegment(s: string): (name: string)
    ensures Separator !in name
  {
    var parts := Split(s);
    parts[|parts| - 1]
  }

  /** Gluing a string onto the first segment glues it onto the front of the joined path. */
  lemma {:induction false} JoinGlue(x: string, parts: seq<string>)
    requires |parts| >= 1
    ensures Join([x + parts[0]] + parts[1..]) == x + Join(parts)
  {
  }

  /** Joining the segments gives back the path, so `Split` loses nothing. */
  lemma {:induction false} JoinSplit(s: string)
    ensures Join(Split(s)) == s
    decreases |s|
  {
    if s != [] {
      var t := s[1..];
      var rest := Split(t);
      JoinSplit(t);
      assert s == [s[0]] + t;
      if s[0] == Separator {
        var parts := [""] + rest;
        assert Split(s) == parts;
        assert parts[1..] == rest;
        assert Join(parts) == "" + [Separator] + Join(rest);
      } else {
        assert Split(s) == [[s[0]] + rest[0]] + rest[1..];
        JoinGlue([s[0]], rest);
      }
    }
  }

  /** Two paths with the same segments are the same path. */
  lemma SplitInjective(a: string, b: string)
    requires Split(a) == Split(b)
    ensures a == b
  {
    JoinSplit(a);
    JoinSplit(b);
  }

  /** A separator-free prefix is glued onto the first segment. */
  lemma {:induction false} SplitPrepend(x: string, s: string)
    requires Separator !in x
    ensures Split(x + s) == [x + Split(s)[0]] + Split(s)[1..]
    decreases |x|
  {
    if x == [] {
      assert x + s == s;
      assert x + Split(s)[0] == Split(s)[0];
      assert Split(s) == [Split(s)[0]] + Split(s)[1..];
    } else {
      var xs := x + s;
      assert xs[0] == x[0] && xs[1..] == x[1..] + s;
      SplitPrepend(x[1..], s);
      assert [x[0]] + (x[1..] + Split(s)[0]) == x + Split(s)[0];
    }
  }

  /** Splitting joined separator-free segments gives back the segments. */
  lemma {:induction false} SplitJoin(parts: seq<string>)
    requires |parts| >= 1
    requires forall i :: 0 <= i < |parts| ==> Separator !in parts[i]
    ensures Split(Join(parts)) == parts
  {
    if |parts| == 1 {
      SplitPrepend(parts[0], "");
      assert parts[0] + "" == parts[0];
    } else {
      var tail := Join(parts[1..]);
      SplitJoin(parts[1..]);
      var sep: string := [Separator];
      assert Split(sep + tail) == [""] + Split(tail) by {
        assert (sep + tail)[0] == Separator && (sep + tail)[1..] == tail;
      }
      SplitPrepend(parts[0], sep + tail);
      assert Join(parts) == parts[0] + (sep + tail);
      assert parts[0] + "" == parts[0];
      assert [parts[0]] + parts[1..] == parts;
    }
  }

  /**
    The last segment is the longest separator-free suffix of the path: it
    ends the path and is preceded either by nothing or by a separator.
   */
  lemma {:induction false} LastSegmentIsSuffix(s: string)
    ensures var name := LastSegment(s);
      && Separator !in name
      && |name| <= |s|
      && s[|s| - |name|..] == name
      && (|name| == |s| || s[|s| - |name| - 1] == Separator)
    decreases |s|
  {
    if s != [] {
      var rest := Split(s[1..]);
      LastSegmentIsSuffix(s[1..]);
      var t := s[1..];
      assert LastSegment(t) == rest[|rest| - 1];
      if s[0] == Separator {
        assert LastSegment(s) == rest[|rest| - 1];
        assert s[|s| - |LastSegment(s)|..] == t[|t| - |LastSegment(t)|..];
      } else if |rest| == 1 {
        JoinSplit(t);
        assert rest[0] == t;
        assert LastSegment(s) == [s[0]] + t;
        assert [s[0]] + t == s;
      } else {
        assert |LastSegment(t)| < |t| by {
          if |LastSegment(t)| == |t| {
            SplitJoin([t]);
            assert false;
          }
        }
        assert LastSegment(s) == rest[|rest| - 1];
        assert s[|s| - |LastSegment(s)|..] == t[|t| - |LastSegment(t)|..];
      }
    }
  }
}
