/** Types and helpers shared by the capture, brightness and backlight modules. */
module Common {

  /** An `unsigned char`: one byte of a frame buffer. */
  newtype uint8 = x: int | 0 <= x < 256

  datatype Option<T> = None | Some(value: T)

  /** The outcome of an operation that either completes or ends the process with a fatal error. */
  datatype Outcome<E> = Pass | Fail(error: E)

  /** The outcome of an operation that yields a value or ends the process with a fatal error. */
  datatype Result<T, E> = Ok(value: T) | Err(error: E)

  /** C's conversion of a floating value to an integer type: truncation toward zero. */
  function Truncate(x: real): (n: int)
    ensures 0.0 <= x ==> 0 <= n && n as real <= x < n as real + 1.0
    ensures x < 0.0 ==> n <= 0 && n as real - 1.0 < x <= n as real
  {
    if x >= 0.0 then x.Floor else -((-x).Floor)
  }

  /** Truncation never reverses the order of two values. */
  lemma TruncateMonotone(x: real, y: real)
    requires x <= y
    ensures Truncate(x) <= Truncate(y)
  {
  }

  /** Truncation leaves a whole number unchanged. */
  lemma TruncateWhole(n: int)
    ensures Truncate(n as real) == n
  {
  }

  /** The sequences of `ss` laid end to end, in order. */
  function Concat<T>(ss: seq<seq<T>>): seq<T> {
    if ss == [] then [] else Concat(ss[..|ss| - 1]) + ss[|ss| - 1]
  }

  lemma ConcatSnoc<T>(ss: seq<seq<T>>, k: nat)
    requires k < |ss|
    ensures Concat(ss[..k + 1]) == Concat(ss[..k]) + ss[k]
  {
    assert ss[..k + 1][..k] == ss[..k];
  }

  lemma {:induction false} ConcatLength<T>(ss: seq<seq<T>>, width: nat)
    requires forall k :: 0 <= k < |ss| ==> |ss[k]| == width
    ensures |Concat(ss)| == |ss| * width
  {
    if ss != [] {
      var init := ss[..|ss| - 1];
      assert forall k :: 0 <= k < |init| ==> init[k] == ss[k];
      ConcatLength(init, width);
      assert |Concat(ss)| == |Concat(init)| + |ss[|ss| - 1]|;
      MultiplyByNext(|init|, width);
    }
  }

  /** Multiplication distributes over a successor: (m + 1) * w is m * w plus w. */
  lemma MultiplyByNext(m: nat, w: nat)
    ensures (m + 1) * w == m * w + w
  {
  }

  lemma MultiplyMonotone(a: nat, b: nat, c: nat)
    requires a <= b
    ensures a * c <= b * c
  {
  }

  /** With every piece `width` long, element j of piece k sits at k * width + j. */
  lemma {:induction false} ConcatAt<T>(ss: seq<seq<T>>, width: nat, k: nat, j: nat)
    requires forall i :: 0 <= i < |ss| ==> |ss[i]| == width
    requires k < |ss| && j < width
    ensures k * width + j < |Concat(ss)|
    ensures Concat(ss)[k * width + j] == ss[k][j]
  {
    var init := ss[..|ss| - 1];
    ConcatLength(ss, width);
    ConcatLength(init, width);
    assert k * width + j < |ss| * width by {
      MultiplyMonotone(k + 1, |ss|, width);
    }
    if k < |ss| - 1 {
      ConcatAt(init, width, k, j);
      assert k * width + j < |Concat(init)|;
    } else {
      assert k * width == |Concat(init)|;
    }
  }
}
