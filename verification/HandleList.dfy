/**
 The global list that links all live handle structs (libuv/qn-uv-stream.c, libuv/qn-uv-pty.c), as nodes with `next`
 pointers, and the uv states a handle goes through.
 */
module HandleList {

  /** A uv handle: open, closing once `uv_close` was called, closed when its close callback has run. */
  datatype Uv = Open | Closing | Closed

  class Node {
    var next: Node?

    constructor ()
      ensures next == null
    {
      next := null;
    }
  }

  class List {
    var head: Node?
    ghost var nodes: seq<Node>

    constructor ()
      ensures Valid() && nodes == []
    {
      head, nodes := null, [];
    }

    /** Each node points to the one after it, and the last to nothing. */
    ghost predicate Valid()
      reads this, nodes
    {
      && (forall i, j | 0 <= i < j < |nodes| :: nodes[i] != nodes[j])
      && (forall i | 0 <= i < |nodes| :: nodes[i].next == NodeAt(nodes, i + 1))
      && head == NodeAt(nodes, 0)
    }

    static ghost function NodeAt(s: seq<Node>, i: nat): Node? {
      if i < |s| then s[i] else null
    }

    /** `stream_link`, `pty_link`. */
    method Link(p: Node)
      requires Valid() && p !in nodes
      modifies this, p
      ensures Valid() && nodes == [p] + old(nodes)
      ensures forall q :: q in nodes <==> q == p || q in old(nodes)
    {
      p.next := head;
      head := p;
      nodes := [p] + nodes;
    }

    /** `*pp = p->next`, where `pp` is the head or the `next` field of the node before. */
    method Splice(prev: Node?, current: Node, ghost i: nat)
      requires Valid() && i < |nodes| && current == nodes[i]
      requires prev == if i == 0 then null else nodes[i - 1]
      modifies this, nodes
      ensures Valid() && nodes == old(nodes)[..i] + old(nodes)[i + 1..]
    {
      if prev == null { head := current.next; } else { prev.next := current.next; }
      ghost var was := nodes;
      nodes := nodes[..i] + nodes[i + 1..];
      forall j | 0 <= j < |nodes| ensures nodes[j].next == NodeAt(nodes, j + 1) {
        if j < i {
          assert nodes[j] == was[j];
        } else {
          assert nodes[j] == was[j + 1];
        }
      }
    }

    /** `stream_unlink`, `pty_unlink`: exactly the node is taken out, wherever it stands, and the order is kept. */
    method Unlink(p: Node)
      requires Valid()
      modifies this, nodes
      ensures Valid() && nodes == Without(old(nodes), p)
      ensures forall q :: q in nodes <==> q in old(nodes) && q != p
    {
      hide Without;
      ghost var i := 0;
      var prev: Node? := null;
      var current := head;
      while current != null
        invariant Valid() && nodes == old(nodes)
        invariant i <= |nodes| && current == NodeAt(nodes, i)
        invariant prev == if i == 0 then null else nodes[i - 1]
        invariant p !in nodes[..i]
        decreases |nodes| - i
      {
        if current == p {
          Splice(prev, current, i);
          WithoutAt(old(nodes), p, i);
          OthersStay(old(nodes), i);
          return;
        }
        prev := current;
        current := current.next;
        i := i + 1;
      }
      WithoutNone(nodes, p);
    }
  }

  /** The sequence without the first occurrence of `x`. */
  ghost function Without(s: seq<Node>, x: Node): seq<Node> {
    if s == [] then [] else if s[0] == x then s[1..] else [s[0]] + Without(s[1..], x)
  }

  lemma {:induction false} WithoutAt(s: seq<Node>, x: Node, i: nat)
    requires i < |s| && s[i] == x && x !in s[..i]
    ensures Without(s, x) == s[..i] + s[i + 1..]
  {
    if i > 0 {
      assert s[0] == s[..i][0];
      assert s[1..][..i - 1] == s[..i][1..];
      WithoutAt(s[1..], x, i - 1);
      assert [s[0]] + s[1..][..i - 1] == s[..i];
    }
  }

  lemma OthersStay(s: seq<Node>, i: nat)
    requires i < |s| && forall j, k | 0 <= j < k < |s| :: s[j] != s[k]
    ensures forall q :: q in s[..i] + s[i + 1..] <==> q in s && q != s[i]
  {
    var rest := s[..i] + s[i + 1..];
    forall j | 0 <= j < |s| && j != i ensures s[j] in rest {
      assert rest[if j < i then j else j - 1] == s[j];
    }
    forall j | 0 <= j < |rest| ensures rest[j] in s && rest[j] != s[i] {
      assert rest[j] == s[if j < i then j else j + 1];
    }
  }

  lemma {:induction false} WithoutNone(s: seq<Node>, x: Node)
    requires x !in s
    ensures Without(s, x) == s
  {
    if s != [] { WithoutNone(s[1..], x); }
  }
}
