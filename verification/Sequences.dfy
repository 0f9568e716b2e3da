/** Laws of sequences used throughout: joined chunks, and pieces standing at a position. */
module Sequences {

  /** The chunks joined end to end. */
  function Flatten<T>(chunks: seq<seq<T>>): seq<T> {
    if chunks == [] then [] else chunks[0] + Flatten(chunks[1..])
  }

  lemma {:induction false} FlattenConcat<T>(a: seq<seq<T>>, b: seq<seq<T>>)
    ensures Flatten(a + b) == Flatten(a) + Flatten(b)
  {
    if a == [] {
      assert a + b == b;
    } else {
      assert (a + b)[1..] == a[1..] + b;
      FlattenConcat(a[1..], b);
    }
  }

  lemma FlattenSnoc<T>(chunks: seq<seq<T>>, last: seq<T>)
    ensures Flatten(chunks + [last]) == Flatten(chunks) + last
  {
    FlattenConcat(chunks, [last]);
    assert Flatten([last]) == last;
  }

  lemma FlattenCons<T>(first: seq<T>, chunks: seq<seq<T>>)
    ensures Flatten([first] + chunks) == first + Flatten(chunks)
  {
    assert ([first] + chunks)[1..] == chunks;
  }

  lemma ConcatAssociates<T>(a: seq<T>, b: seq<T>, c: seq<T>)
    ensures a + b + c == a + (b + c)
  {
  }

  /** The sequence `s` is found in `buf` at position `i`. */
  ghost predicate StandsAt<T>(buf: seq<T>, i: nat, s: seq<T>) {
    i + |s| <= |buf| && buf[i..i + |s|] == s
  }

  lemma SplitStand<T>(buf: seq<T>, i: nat, a: seq<T>, b: seq<T>)
    requires StandsAt(buf, i, a + b)
    ensures StandsAt(buf, i, a) && StandsAt(buf, i + |a|, b)
  {
    var end := i + |a + b|;
    assert buf[i..i + |a|] == buf[i..end][..|a|] == a;
    assert buf[i + |a|..end] == buf[i..end][|a|..] == b;
  }
}
