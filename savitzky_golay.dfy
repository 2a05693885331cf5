/** The Savitzky–Golay smoothing filter of the preprocessing: the design of its
    coefficient matrix from a half-window size and a polynomial order, and the
    three-loop `Process` that applies it to one reading. */
module SavitzkyGolay {
  import opened Options
  import opened MathExt

  /** A dense matrix as a sequence of rows. */
  type Matrix = seq<seq<real>>

  predicate IsMatrix(a: Matrix, rows: nat, cols: nat)
  {
    |a| == rows && forall k :: 0 <= k < rows ==> |a[k]| == cols
  }

  /** Entry (row, column) of the least-squares projection A·(AᵀA)⁻¹·Aᵀ of a basis
      matrix A, as the linear-algebra library computes it (inverse and products
      are not part of this model). */
  type Projection = (Matrix, int, int) -> real

  /** Number of samples in one window: `(SidePoints << 1) + 1`. */
  function FrameSize(sidePoints: nat): nat
  {
    2 * sidePoints + 1
  }

  /** `Math.Pow(b, e)` for an integer base and a natural exponent. */
  function Power(b: int, e: nat): real
  {
    if e == 0 then 1.0 else (b as real) * Power(b, e - 1)
  }

  /** The local polynomial basis: row k, column j holds (k - sidePoints)^j. */
  function Basis(sidePoints: nat, order: nat): Matrix
  {
    seq(FrameSize(sidePoints), k => seq(order + 1, j requires 0 <= j => Power(k - sidePoints, j)))
  }

  /** The square matrix whose entries the projection gives for basis `a`. */
  function Project(a: Matrix, size: nat, projection: Projection): (c: Matrix)
    ensures IsMatrix(c, size, size)
  {
    seq(size, r => seq(size, col => projection(a, r, col)))
  }

  /** The coefficients a filter with these parameters stores. */
  function Designed(sidePoints: nat, order: nat, projection: Projection): Matrix
  {
    Project(Basis(sidePoints, order), FrameSize(sidePoints), projection)
  }

  /** `Matrix.Column(j)`. */
  function Column(c: Matrix, j: nat): seq<real>
    requires forall k :: 0 <= k < |c| ==> j < |c[k]|
  {
    seq(|c|, k requires 0 <= k < |c| => c[k][j])
  }

  /** `Vector.DotProduct` of two vectors of the same length. */
  function Dot(u: seq<real>, v: seq<real>): real
    requires |u| == |v|
  {
    if |u| == 0 then 0.0 else Dot(u[..|u| - 1], v[..|v| - 1]) + u[|u| - 1] * v[|v| - 1]
  }

  /** The `size` samples starting at `start`. */
  function Window(s: seq<real>, start: nat, size: nat): seq<real>
    requires start + size <= |s|
  {
    s[start..start + size]
  }

  /** The frame the trailing loop works on: its first 2·sidePoints slots receive the
      last 2·sidePoints samples, and its last slot still holds what the previous
      loop left there, which is the final sample in every case. */
  function TrailingFrame(s: seq<real>, sidePoints: nat): seq<real>
    requires FrameSize(sidePoints) <= |s|
  {
    s[|s| - 2 * sidePoints..] + [s[|s| - 1]]
  }

  /** `Process` throws: `Array.Copy` when the input is shorter than one frame, and
      `Column(SidePoints + 1)` when `SidePoints` is 0 and the interior loop runs. */
  predicate Throws(sidePoints: nat, length: nat)
  {
    length < FrameSize(sidePoints) || (sidePoints == 0 && length > 1)
  }

  /** Leading loop, index i <= sidePoints: column i applied to the first window. */
  function LeadingAt(c: Matrix, sidePoints: nat, s: seq<real>, i: nat): real
    requires IsMatrix(c, FrameSize(sidePoints), FrameSize(sidePoints))
    requires FrameSize(sidePoints) <= |s| && i <= sidePoints
  {
    Dot(Column(c, i), Window(s, 0, FrameSize(sidePoints)))
  }

  /** Interior loop, index n: column sidePoints + 1 applied to the window centred on n. */
  function InteriorAt(c: Matrix, sidePoints: nat, s: seq<real>, n: nat): real
    requires IsMatrix(c, FrameSize(sidePoints), FrameSize(sidePoints))
    requires 0 < sidePoints && sidePoints <= n && n + sidePoints < |s|
  {
    Dot(Column(c, sidePoints + 1), Window(s, n - sidePoints, FrameSize(sidePoints)))
  }

  /** Trailing loop, step i <= sidePoints (index |s| - 1 - sidePoints + i): column
      sidePoints + i applied to the trailing frame. */
  function TrailingAt(c: Matrix, sidePoints: nat, s: seq<real>, i: nat): real
    requires IsMatrix(c, FrameSize(sidePoints), FrameSize(sidePoints))
    requires FrameSize(sidePoints) <= |s| && i <= sidePoints
  {
    Dot(Column(c, sidePoints + i), TrailingFrame(s, sidePoints))
  }

  lemma LeadingStep(c: Matrix, sidePoints: nat, s: seq<real>, i: nat, frame: seq<real>)
    requires IsMatrix(c, FrameSize(sidePoints), FrameSize(sidePoints))
    requires FrameSize(sidePoints) <= |s| && i <= sidePoints
    requires frame == Window(s, 0, FrameSize(sidePoints))
    ensures Dot(Column(c, i), frame) == LeadingAt(c, sidePoints, s, i)
  {
  }

  lemma InteriorStep(c: Matrix, sidePoints: nat, s: seq<real>, n: nat, frame: seq<real>)
    requires IsMatrix(c, FrameSize(sidePoints), FrameSize(sidePoints))
    requires 0 < sidePoints && sidePoints <= n && n + sidePoints < |s|
    requires frame == Window(s, n - sidePoints, FrameSize(sidePoints))
    ensures Dot(Column(c, sidePoints + 1), frame) == InteriorAt(c, sidePoints, s, n)
    ensures frame[2 * sidePoints] == s[n + sidePoints]
  {
  }

  lemma TrailingStep(c: Matrix, sidePoints: nat, s: seq<real>, i: nat, frame: seq<real>)
    requires IsMatrix(c, FrameSize(sidePoints), FrameSize(sidePoints))
    requires FrameSize(sidePoints) <= |s| && i <= sidePoints
    requires frame == TrailingFrame(s, sidePoints)
    ensures Dot(Column(c, sidePoints + i), frame) == TrailingAt(c, sidePoints, s, i)
  {
  }

  /** The value `Process` leaves at index n. The trailing loop runs last, so its
      writes win over the leading and the interior ones. */
  function SmoothedAt(c: Matrix, sidePoints: nat, s: seq<real>, n: nat): real
    requires IsMatrix(c, FrameSize(sidePoints), FrameSize(sidePoints))
    requires !Throws(sidePoints, |s|) && n < |s|
  {
    var m := sidePoints;
    if n >= |s| - 1 - m then TrailingAt(c, m, s, n - (|s| - 1 - m))
    else if n <= m then LeadingAt(c, m, s, n)
    else InteriorAt(c, m, s, n)
  }

  /** The result of `Process` on samples `s`: `None` when it throws. */
  function Smooth(c: Matrix, sidePoints: nat, s: seq<real>): (r: Option<seq<real>>)
    requires IsMatrix(c, FrameSize(sidePoints), FrameSize(sidePoints))
    ensures r.None? <==> Throws(sidePoints, |s|)
    ensures r.Some? ==> |r.value| == |s|
  {
    if Throws(sidePoints, |s|) then None
    else Some(seq(|s|, n requires 0 <= n < |s| => SmoothedAt(c, sidePoints, s, n)))
  }

  /** A vector applied to a constant frame scales the constant by the vector's sum. */
  lemma {:induction false} DotConstant(u: seq<real>, v: seq<real>, x: real)
    requires |u| == |v|
    requires forall i :: 0 <= i < |v| ==> v[i] == x
    ensures Dot(u, v) == Sum(u) * x
  {
    if |u| > 0 {
      var n := |u| - 1;
      DotConstant(u[..n], v[..n], x);
      DistributeSum(Sum(u[..n]), u[n], x, Dot(u[..n], v[..n]), u[n] * v[n]);
    }
  }

  /** Every frame the filter reads (leading, interior and trailing) is made of
      samples, so when each column of the coefficients sums to one, as it does for
      a least-squares fit that includes the constant term, a flat reading comes
      back unchanged. */
  lemma SmoothPreservesConstant(c: Matrix, sidePoints: nat, s: seq<real>, x: real)
    requires IsMatrix(c, FrameSize(sidePoints), FrameSize(sidePoints))
    requires forall j :: 0 <= j < FrameSize(sidePoints) ==> Sum(Column(c, j)) == 1.0
    requires forall i :: 0 <= i < |s| ==> s[i] == x
    ensures Smooth(c, sidePoints, s) == if Throws(sidePoints, |s|) then None else Some(s)
  {
    var m := sidePoints;
    if !Throws(m, |s|) {
      forall n | 0 <= n < |s|
        ensures SmoothedAt(c, m, s, n) == s[n]
      {
        if n >= |s| - 1 - m {
          var i := n - (|s| - 1 - m);
          DotConstant(Column(c, m + i), TrailingFrame(s, m), x);
        } else if n <= m {
          DotConstant(Column(c, n), Window(s, 0, FrameSize(m)), x);
        } else {
          DotConstant(Column(c, m + 1), Window(s, n - m, FrameSize(m)), x);
        }
      }
      assert Smooth(c, m, s).value == s;
    }
  }

  /** The matrix `Matrix.Build.DenseOfArray` makes of a two-dimensional array. */
  function Rows(a: array2<real>): Matrix
    reads a
  {
    seq(a.Length0, k requires 0 <= k < a.Length0 reads a =>
      seq(a.Length1, j requires 0 <= j < a.Length1 reads a => a[k, j]))
  }

  /** `Array.Copy` / `Array.ConstrainedCopy`: `count` elements of `source` from
      `sourceIndex` on go to `destination` from `destinationIndex` on; the rest of
      `destination` keeps its values. */
  method CopyRange(source: array<real>, sourceIndex: nat, destination: array<real>, destinationIndex: nat, count: nat)
    requires sourceIndex + count <= source.Length && destinationIndex + count <= destination.Length
    modifies destination
    ensures destination[..] == old(destination[..destinationIndex]) + old(source[sourceIndex..sourceIndex + count])
                               + old(destination[destinationIndex + count..])
  {
    var moved := source[sourceIndex..sourceIndex + count];
    for t := 0 to count
      invariant forall k :: 0 <= k < destination.Length ==>
        destination[k] == if destinationIndex <= k < destinationIndex + t
                          then moved[k - destinationIndex]
                          else old(destination[k])
    {
      destination[destinationIndex + t] := moved[t];
    }
  }

  class SavitzkyGolayFilter {
    const sidePoints: nat
    var coefficients: Matrix

    ghost predicate Valid()
      reads this
    {
      IsMatrix(coefficients, FrameSize(sidePoints), FrameSize(sidePoints))
    }

    constructor (sidePoints: nat, polynomialOrder: nat, projection: Projection)
      ensures this.sidePoints == sidePoints
      ensures coefficients == Designed(sidePoints, polynomialOrder, projection)
      ensures Valid()
    {
      this.sidePoints := sidePoints;
      coefficients := [];
      new;
      Design(polynomialOrder, projection);
    }

    /** Builds the basis in a two-dimensional array and stores its projection. */
    method Design(polynomialOrder: nat, projection: Projection)
      modifies this
      ensures coefficients == Designed(sidePoints, polynomialOrder, projection)
    {
      var a := Vandermonde(sidePoints, polynomialOrder);
      var s := Rows(a);
      forall k | 0 <= k < FrameSize(sidePoints)
        ensures s[k] == Basis(sidePoints, polynomialOrder)[k]
      {
      }
      assert s == Basis(sidePoints, polynomialOrder);
      coefficients := Project(s, FrameSize(sidePoints), projection);
    }

    /** The nested loops of `Design`: a (2m+1)×(p+1) array whose entry [k, j]
        is (k - m)^j. */
    static method Vandermonde(sidePoints: nat, polynomialOrder: nat) returns (a: array2<real>)
      ensures a.Length0 == FrameSize(sidePoints) && a.Length1 == polynomialOrder + 1
      ensures forall k, j :: 0 <= k < a.Length0 && 0 <= j < a.Length1 ==> a[k, j] == Power(k - sidePoints, j)
    {
      a := new real[FrameSize(sidePoints), polynomialOrder + 1];
      var m: int := -(sidePoints as int);
      while m <= sidePoints
        invariant -(sidePoints as int) <= m <= sidePoints + 1
        invariant forall k, j :: 0 <= k < m + sidePoints && 0 <= j <= polynomialOrder ==>
          a[k, j] == Power(k - sidePoints, j)
      {
        var i := 0;
        while i <= polynomialOrder
          invariant 0 <= i <= polynomialOrder + 1
          invariant forall k, j :: 0 <= k < m + sidePoints && 0 <= j <= polynomialOrder ==>
            a[k, j] == Power(k - sidePoints, j)
          invariant forall j :: 0 <= j < i ==> a[m + sidePoints, j] == Power(m, j)
        {
          a[m + sidePoints, i] := Power(m, i);
          i := i + 1;
        }
        m := m + 1;
      }
    }

    /** Smooths `samples` into a new array, leaving `samples` unchanged. */
    method Process(samples: array<real>) returns (output: Option<array<real>>)
      requires Valid()
      ensures output.None? <==> Throws(sidePoints, samples.Length)
      ensures output.Some? ==> fresh(output.value)
      ensures output.Some? ==> Some(output.value[..]) == Smooth(coefficients, sidePoints, samples[..])
    {
      var c, m := coefficients, sidePoints;
      var length := samples.Length;
      var out := new real[length];
      var frameSize := 2 * m + 1;
      var frame := new real[frameSize];
      if length < frameSize {
        // the first Array.Copy of the leading loop throws
        return None;
      }
      FillLeading(c, m, samples, frame, out);
      var ok := FillInterior(c, m, samples, frame, out);
      if !ok {
        return None;
      }
      FillTrailing(c, m, samples, frame, out);
      ghost var s := samples[..];
      forall k | 0 <= k < length
        ensures out[k] == SmoothedAt(c, m, s, k)
      {
        if k >= length - 1 - m {
          var j := k - (length - 1 - m);
          assert out[length - 1 - m + j] == TrailingAt(c, m, s, j);
        }
      }
      assert out[..] == Smooth(c, m, s).value;
      output := Some(out);
    }

    /** The leading loop: output[i] for i <= m, from the first full window. */
    static method FillLeading(c: Matrix, m: nat, samples: array<real>, frame: array<real>, out: array<real>)
      requires IsMatrix(c, FrameSize(m), FrameSize(m))
      requires frame.Length == FrameSize(m) <= samples.Length == out.Length
      requires samples != frame && samples != out && frame != out
      modifies frame, out
      ensures frame[..] == Window(samples[..], 0, FrameSize(m))
      ensures forall k :: 0 <= k <= m ==> out[k] == LeadingAt(c, m, samples[..], k)
      ensures forall k :: m < k < out.Length ==> out[k] == old(out[k])
    {
      ghost var s := samples[..];
      var frameSize := 2 * m + 1;
      for i := 0 to m + 1
        invariant i > 0 ==> frame[..] == Window(s, 0, frameSize)
        invariant forall k :: 0 <= k < i ==> out[k] == LeadingAt(c, m, s, k)
        invariant forall k :: i <= k < out.Length ==> out[k] == old(out[k])
      {
        CopyRange(samples, 0, frame, 0, frameSize);
        LeadingStep(c, m, s, i, frame[..]);
        out[i] := Dot(Column(c, i), frame[..]);
      }
    }

    /** The interior loop: output[n] for m < n < length - m, from the window centred
        on n and column m + 1. Returns false where `Column(m + 1)` throws, which
        happens when m is 0 and the loop body runs. */
    static method FillInterior(c: Matrix, m: nat, samples: array<real>, frame: array<real>, out: array<real>)
      returns (ok: bool)
      requires IsMatrix(c, FrameSize(m), FrameSize(m))
      requires frame.Length == FrameSize(m) <= samples.Length == out.Length
      requires samples != frame && samples != out && frame != out
      requires frame[2 * m] == samples[2 * m]
      modifies frame, out
      ensures ok <==> !Throws(m, samples.Length)
      ensures ok ==> frame[2 * m] == samples[samples.Length - 1]
      ensures ok ==> forall k :: m < k < out.Length - m ==> out[k] == InteriorAt(c, m, samples[..], k)
      ensures forall k :: 0 <= k <= m ==> out[k] == old(out[k])
      ensures forall k :: out.Length - m <= k < out.Length ==> out[k] == old(out[k])
      ensures !ok ==> out[..] == old(out[..])
    {
      ghost var s := samples[..];
      var length, frameSize := samples.Length, 2 * m + 1;
      var n := m + 1;
      while n < length - m
        invariant m + 1 <= n <= length - m
        invariant m == 0 ==> n == 1
        invariant frame[2 * m] == s[n - 1 + m]
        invariant forall k :: 0 <= k <= m ==> out[k] == old(out[k])
        invariant forall k :: m < k < n ==> out[k] == InteriorAt(c, m, s, k)
        invariant forall k :: n <= k < out.Length && m < k ==> out[k] == old(out[k])
      {
        if m + 1 >= frameSize {
          // Column(m + 1) is out of range; the copy before it only touches the scratch frame
          return false;
        }
        SmoothInterior(c, m, samples, frame, out, n);
        n := n + 1;
      }
      return true;
    }

    /** One pass of the interior loop: copy the window centred on n into the frame,
        then write column m + 1 applied to it at index n. */
    static method SmoothInterior(c: Matrix, m: nat, samples: array<real>, frame: array<real>, out: array<real>, n: nat)
      requires IsMatrix(c, FrameSize(m), FrameSize(m))
      requires frame.Length == FrameSize(m) <= samples.Length == out.Length
      requires samples != frame && samples != out && frame != out
      requires 0 < m < n < samples.Length - m
      modifies frame, out
      ensures out[..] == old(out[..])[n := InteriorAt(c, m, samples[..], n)]
      ensures frame[2 * m] == samples[n + m]
    {
      CopyRange(samples, n - m, frame, 0, 2 * m + 1);
      var window := frame[..];
      InteriorStep(c, m, samples[..], n, window);
      out[n] := Dot(Column(c, m + 1), window);
    }

    /** The trailing loop: output[length - 1 - m + i] for i <= m, from column m + i
        and a frame whose first 2m slots get the last 2m samples. */
    static method FillTrailing(c: Matrix, m: nat, samples: array<real>, frame: array<real>, out: array<real>)
      requires IsMatrix(c, FrameSize(m), FrameSize(m))
      requires frame.Length == FrameSize(m) <= samples.Length == out.Length
      requires samples != frame && samples != out && frame != out
      requires frame[2 * m] == samples[samples.Length - 1]
      modifies frame, out
      ensures forall k :: 0 <= k < out.Length - 1 - m ==> out[k] == old(out[k])
      ensures forall j :: 0 <= j <= m ==> out[out.Length - 1 - m + j] == TrailingAt(c, m, samples[..], j)
    {
      ghost var s := samples[..];
      var length := samples.Length;
      for i := 0 to m + 1
        invariant frame[2 * m] == s[length - 1]
        invariant forall k :: 0 <= k < length - 1 - m ==> out[k] == old(out[k])
        invariant forall j :: 0 <= j < i ==> out[length - 1 - m + j] == TrailingAt(c, m, s, j)
      {
        SmoothTrailing(c, m, samples, frame, out, i);
      }
    }

    /** One pass of the trailing loop: copy the last 2m samples to the front of the
        frame, then write column m + i applied to it at index length - 1 - m + i. */
    static method SmoothTrailing(c: Matrix, m: nat, samples: array<real>, frame: array<real>, out: array<real>, i: nat)
      requires IsMatrix(c, FrameSize(m), FrameSize(m))
      requires frame.Length == FrameSize(m) <= samples.Length == out.Length
      requires samples != frame && samples != out && frame != out
      requires frame[2 * m] == samples[samples.Length - 1] && i <= m
      modifies frame, out
      ensures out[..] == old(out[..])[out.Length - 1 - m + i := TrailingAt(c, m, samples[..], i)]
      ensures frame[2 * m] == samples[samples.Length - 1]
    {
      ghost var s := samples[..];
      var length := samples.Length;
      assert frame[2 * m..] == [s[length - 1]];
      CopyRange(samples, length - 2 * m, frame, 0, 2 * m);
      var window := frame[..];
      assert window == TrailingFrame(s, m);
      TrailingStep(c, m, s, i, window);
      out[length - 1 - m + i] := Dot(Column(c, m + i), window);
    }
  }
}
