/** Copying bytes within and between buffers, as `memcpy` and `memmove` do. */
module Memory {
  import opened Bytes

  /** Copies `n` bytes from `offset` to the front of `into`, which may be the same buffer. */
  method CopyDown(from: array<byte>, offset: nat, into: array<byte>, n: nat)
    requires offset + n <= from.Length && n <= into.Length
    modifies into
    ensures into[..n] == old(from[offset..offset + n])
  {
    for i := 0 to n
      invariant forall k | 0 <= k < i :: into[k] == old(from[offset + k])
      invariant forall k | offset + i <= k < offset + n :: from[k] == old(from[k])
    {
      into[i] := from[offset + i];
    }
  }

  /** Writes bytes behind the first `at`. */
  method Put(buf: array<byte>, at: nat, bytes: seq<byte>)
    requires at + |bytes| <= buf.Length
    modifies buf
    ensures buf[..at + |bytes|] == old(buf[..at]) + bytes
  {
    for i := 0 to |bytes|
      invariant buf[..at + i] == old(buf[..at]) + bytes[..i]
    {
      buf[at + i] := bytes[i];
      assert buf[..at + i + 1] == buf[..at + i] + [bytes[i]];
    }
  }
}
