/** memcpy and memmove on arrays, as the buffer code uses them. */
module Memory {
  /** memcpy(dst + to, src + from, n) between different arrays. */
  method CopyOut<T>(dst: array<T>, to: nat, src: array<T>, from: nat, n: nat)
    requires dst != src && to + n <= dst.Length && from + n <= src.Length
    modifies dst
    ensures dst[..] == old(dst[..to]) + src[from..from + n] + old(dst[to + n..])
  {
    forall i | 0 <= i < n { dst[to + i] := src[from + i]; }
  }

  /** memcpy of bytes that a system call returned. */
  method CopyIn<T>(dst: array<T>, to: nat, bytes: seq<T>)
    requires to + |bytes| <= dst.Length
    modifies dst
    ensures dst[..] == old(dst[..to]) + bytes + old(dst[to + |bytes|..])
  {
    forall i | 0 <= i < |bytes| { dst[to + i] := bytes[i]; }
  }

  /** memmove(a, a + from, n): the regions may overlap. */
  method MoveDown<T>(a: array<T>, from: nat, n: nat)
    requires from + n <= a.Length
    modifies a
    ensures a[..] == old(a[from..from + n]) + old(a[n..])
  {
    forall i | 0 <= i < n { a[i] := a[from + i]; }
  }
}
