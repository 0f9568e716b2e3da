/** JavaScript's `split` and `join` on a one-character separator, and the laws that tie them together. */
module Text {

  function Split(s: string, sep: char): (parts: seq<string>)
    ensures |parts| >= 1
  {
    if s == "" then [""]
    else
      var rest := Split(s[1..], sep);
      if s[0] == sep then [""] + rest
      else [[s[0]] + rest[0]] + rest[1..]
  }

  function Join(parts: seq<string>, sep: char): string {
    if parts == [] then ""
    else if |parts| == 1 then parts[0]
    else parts[0] + [sep] + Join(parts[1..], sep)
  }

  ghost predicate Free(parts: seq<string>, sep: char) {
    forall p <- parts :: sep !in p
  }

  lemma {:induction false} SplitConcat(x: string, y: string, sep: char)
    ensures Split(x + [sep] + y, sep) == Split(x, sep) + Split(y, sep)
  {
    if x == "" {
      assert x + [sep] + y == [sep] + y;
      assert ([sep] + y)[1..] == y;
    } else {
      assert (x + [sep] + y)[1..] == x[1..] + [sep] + y;
      SplitConcat(x[1..], y, sep);
    }
  }

  lemma {:induction false} SplitFree(s: string, sep: char)
    requires sep !in s
    ensures Split(s, sep) == [s]
  {
    if s != "" {
      SplitFree(s[1..], sep);
      assert [s[0]] + s[1..] == s;
    }
  }

  /** Splitting undoes joining, for a non-empty list of separator-free parts. */
  lemma {:induction false} SplitJoin(parts: seq<string>, sep: char)
    requires parts != [] && Free(parts, sep)
    ensures Split(Join(parts, sep), sep) == parts
  {
    SplitFree(parts[0], sep);
    if |parts| > 1 {
      SplitJoin(parts[1..], sep);
      SplitConcat(parts[0], Join(parts[1..], sep), sep);
    }
  }

  /** Joining undoes splitting, and every part of a split is separator-free. */
  lemma {:induction false} JoinSplit(s: string, sep: char)
    ensures Join(Split(s, sep), sep) == s
    ensures Free(Split(s, sep), sep)
  {
    if s != "" {
      JoinSplit(s[1..], sep);
      var rest := Split(s[1..], sep);
      if s[0] == sep {
        assert ([""] + rest)[1..] == rest;
        assert "" + [sep] + s[1..] == s;
      } else {
        var parts := [[s[0]] + rest[0]] + rest[1..];
        assert parts[1..] == rest[1..];
        assert [s[0]] + s[1..] == s;
        if |rest| > 1 {
          var tail := Join(rest[1..], sep);
          assert ([s[0]] + rest[0]) + [sep] + tail == [s[0]] + (rest[0] + [sep] + tail);
        }
      }
    }
  }

  lemma {:induction false} JoinConcat(a: seq<string>, b: seq<string>, sep: char)
    requires a != [] && b != []
    ensures Join(a + b, sep) == Join(a, sep) + [sep] + Join(b, sep)
  {
    if |a| == 1 {
      assert (a + b)[1..] == b;
    } else {
      assert (a + b)[1..] == a[1..] + b;
      JoinConcat(a[1..], b, sep);
      assert a[0] + [sep] + (Join(a[1..], sep) + [sep] + Join(b, sep))
          == a[0] + [sep] + Join(a[1..], sep) + [sep] + Join(b, sep);
    }
  }

  /** How many separators lie at positions `lo` to `hi`, the latter excluded. */
  function Count(s: string, sep: char, lo: nat, hi: nat): nat
    requires hi <= |s|
  {
    if lo >= hi then 0 else Count(s, sep, lo, hi - 1) + if s[hi - 1] == sep then 1 else 0
  }

  lemma {:induction false} SplitLength(s: string, sep: char, lo: nat, hi: nat)
    requires lo <= hi <= |s|
    ensures |Split(s[lo..hi], sep)| == Count(s, sep, lo, hi) + 1
  {
    if lo == hi {
      assert s[lo..hi] == "";
    } else {
      var front := s[lo..hi - 1];
      SplitLength(s, sep, lo, hi - 1);
      if s[hi - 1] == sep {
        assert s[lo..hi] == front + [sep] + "";
        SplitConcat(front, "", sep);
      } else {
        SplitSnoc(front, s[hi - 1], sep);
        assert s[lo..hi] == front + [s[hi - 1]];
      }
    }
  }

  lemma {:induction false} SplitSnoc(s: string, c: char, sep: char)
    requires c != sep
    ensures |Split(s + [c], sep)| == |Split(s, sep)|
  {
    if s == "" {
      assert (s + [c])[1..] == "";
    } else {
      assert (s + [c])[1..] == s[1..] + [c];
      SplitSnoc(s[1..], c, sep);
    }
  }
}
