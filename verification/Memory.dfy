/** Copying into buffers. */
module Memory {
  /** `b` with `d` written over it from position `p` on. */
  function Overlay<T>(b: seq<T>, p: nat, d: seq<T>): (r: seq<T>)
    requires p + |d| <= |b|
    ensures |r| == |b|
  {
    b[..p] + d + b[p + |d|..]
  }

  /** `memcpy(into + at, data, |data|)`. */
  method Copy<T>(into: array<T>, at: nat, data: seq<T>)
    requires at + |data| <= into.Length
    modifies into
    ensures into[..] == Overlay(old(into[..]), at, data)
  {
    forall k | 0 <= k < |data| {
      into[at + k] := data[k];
    }
  }
}
