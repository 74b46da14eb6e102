/** Copying into buffers, as memcpy and memset do. */
module Buffers {
  /** `a` with `b` written over it at `at`. */
  function Overwritten<T>(a: seq<T>, at: nat, b: seq<T>): seq<T>
    requires at + |b| <= |a|
  {
    a[..at] + b + a[at + |b|..]
  }

  /** memcpy */
  method CopyTo<T>(b: seq<T>, out: array<T>, to: nat)
    requires to + |b| <= out.Length
    modifies out
    ensures out[..] == Overwritten(old(out[..]), to, b)
  {
    for i := 0 to |b|
      invariant forall j :: 0 <= j < i ==> out[to + j] == b[j]
      invariant forall j :: 0 <= j < out.Length && (j < to || j >= to + i) ==> out[j] == old(out[j])
    {
      out[to + i] := b[i];
    }
  }

  lemma {:induction false} OverwriteAll<T>(a: seq<T>, b: seq<T>)
    requires |a| == |b|
    ensures Overwritten(a, 0, b) == b
  {
  }

  lemma {:induction false} OverwriteNext<T>(a: seq<T>, at: nat, y: seq<T>, b: seq<T>)
    requires at + |y| + |b| <= |a|
    ensures Overwritten(Overwritten(a, at, y), at + |y|, b) == Overwritten(a, at, y + b)
  {
  }

  lemma {:induction false} OverwrittenOn<T>(a: seq<T>, y: seq<T>, b: seq<T>, now: seq<T>, whole: seq<T>)
    requires |y| + |b| <= |a| && now == Overwritten(a, 0, y) && whole == y + b
    ensures Overwritten(now, |y|, b) == Overwritten(a, 0, whole)
  {
    OverwriteNext(a, 0, y, b);
  }

  function Repeated<T>(x: T, n: nat): (r: seq<T>)
    ensures |r| == n
  {
    seq(n, i => x)
  }

  /** memset */
  method Fill<T>(out: array<T>, from: nat, to: nat, x: T)
    requires from <= to <= out.Length
    modifies out
    ensures out[..] == Overwritten(old(out[..]), from, Repeated(x, to - from))
  {
    for i := from to to
      invariant forall j :: from <= j < i ==> out[j] == x
      invariant forall j :: 0 <= j < out.Length && (j < from || j >= i) ==> out[j] == old(out[j])
    {
      out[i] := x;
    }
  }
}
