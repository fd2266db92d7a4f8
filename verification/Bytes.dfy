/** Bytes, options and the C memory primitives the other modules share. */
module Bytes {

  type Byte = x: int | 0 <= x < 256

  datatype Option<+T> = None | Some(value: T)

  function Min(a: int, b: int): int { if a < b then a else b }

  function Max(a: int, b: int): int { if a < b then b else a }

  /** The C cast from a real, which truncates toward zero. */
  function TruncReal(x: real): int {
    if x >= 0.0 then x.Floor else -((-x).Floor)
  }

  /** Quotient and remainder are determined by their equation. */
  lemma DivModUnique(x: int, q: int, r: int, m: int)
    requires 0 <= r < m && x == q * m + r
    ensures x / m == q && x % m == r
  {
    var d := x / m - q;
    assert d >= 1 ==> d * m >= m;
    assert d <= -1 ==> d * m <= -m;
    assert d * m == r - x % m;
  }

  lemma AddMultiple(a: nat, m: nat)
    requires m > 0
    ensures (a + m) % m == a % m && (a + m) / m == a / m + 1
  {
    assert a + m == (a / m + 1) * m + a % m;
    DivModUnique(a + m, a / m + 1, a % m, m);
  }

  /** `s` with `piece` written over it at `to`. */
  function Splice<T>(s: seq<T>, to: nat, piece: seq<T>): (r: seq<T>)
    requires to + |piece| <= |s|
    ensures |r| == |s|
  {
    s[..to] + piece + s[to + |piece|..]
  }

  /** memcpy between distinct arrays: `n` elements of `src` from `from` land in `dst` at `to`. */
  method CopyInto<T>(dst: array<T>, to: nat, src: array<T>, from: nat, n: nat)
    requires dst != src
    requires to + n <= dst.Length && from + n <= src.Length
    modifies dst
    ensures dst[..] == Splice(old(dst[..]), to, src[from..from + n])
  {
    var i := 0;
    while i < n
      invariant i <= n
      invariant forall j :: 0 <= j < dst.Length ==>
        dst[j] == if to <= j < to + i then src[from + (j - to)] else old(dst[j])
    {
      dst[to + i] := src[from + i];
      i := i + 1;
    }
  }

  /** memcpy from a value. */
  method CopySeq<T>(dst: array<T>, to: nat, src: seq<T>)
    requires to + |src| <= dst.Length
    modifies dst
    ensures dst[..] == Splice(old(dst[..]), to, src)
  {
    var i := 0;
    while i < |src|
      invariant i <= |src|
      invariant forall j :: 0 <= j < dst.Length ==>
        dst[j] == if to <= j < to + i then src[j - to] else old(dst[j])
    {
      dst[to + i] := src[i];
      i := i + 1;
    }
  }

  /** memmove of `n` elements from `from` to the front of the same array. */
  method MoveToFront<T>(a: array<T>, from: nat, n: nat)
    requires from + n <= a.Length
    modifies a
    ensures a[..] == Splice(old(a[..]), 0, old(a[from..from + n]))
  {
    var i := 0;
    while i < n
      invariant i <= n
      invariant forall j :: 0 <= j < i ==> a[j] == old(a[from + j])
      invariant forall j :: i <= j < a.Length ==> a[j] == old(a[j])
    {
      a[i] := a[from + i];
      i := i + 1;
    }
    ghost var moved := Splice(old(a[..]), 0, old(a[from..from + n]));
    assert forall j :: 0 <= j < a.Length ==> a[j] == moved[j];
  }
}
