/** The Savitzky–Golay filter as the least-squares design intends it: every output
    sample is the fitted value at its own position in a window that lies entirely
    inside the reading, centred on the sample wherever the reading allows. It is
    set beside `SavitzkyGolay.Smooth`, which models the filter as written, to show
    where the two differ. */
module CentredSmoothing {
  import opened Options
  import opened SavitzkyGolay

  /** Start of the window used for output n: n - sidePoints, clamped so that the
      window stays inside a reading of `length` samples. */
  function WindowStart(sidePoints: nat, length: nat, n: nat): (start: nat)
    requires FrameSize(sidePoints) <= length && n < length
    ensures start + FrameSize(sidePoints) <= length
    ensures start <= n < start + FrameSize(sidePoints)
    ensures sidePoints <= n < length - sidePoints ==> start + sidePoints == n
  {
    if n < sidePoints then 0
    else if n - sidePoints > length - FrameSize(sidePoints) then length - FrameSize(sidePoints)
    else n - sidePoints
  }

  /** The corrected filter: output n applies column n - start, the position of n in
      its window, to that window. Only a reading shorter than one frame is refused. */
  function SmoothCentred(c: Matrix, sidePoints: nat, s: seq<real>): (r: Option<seq<real>>)
    requires IsMatrix(c, FrameSize(sidePoints), FrameSize(sidePoints))
    ensures r.None? <==> |s| < FrameSize(sidePoints)
    ensures r.Some? ==> |r.value| == |s|
  {
    if |s| < FrameSize(sidePoints) then None
    else Some(seq(|s|, n requires 0 <= n < |s| =>
      var start := WindowStart(sidePoints, |s|, n);
      Dot(Column(c, n - start), Window(s, start, FrameSize(sidePoints)))))
  }

  /** The coefficients reproduce the reading: on every window, column j gives back
      the window's j-th sample. A least-squares projection does this exactly when
      the reading is a polynomial of at most the design's order. */
  ghost predicate Reproduces(c: Matrix, sidePoints: nat, s: seq<real>)
    requires IsMatrix(c, FrameSize(sidePoints), FrameSize(sidePoints))
  {
    forall start, j {:trigger Dot(Column(c, j), Window(s, start, FrameSize(sidePoints)))} ::
      0 <= j < FrameSize(sidePoints) && 0 <= start && start + FrameSize(sidePoints) <= |s| ==>
        Dot(Column(c, j), Window(s, start, FrameSize(sidePoints))) == s[start + j]
  }

  /** The intended property: a reading the coefficients reproduce comes back
      unchanged from the corrected filter. */
  lemma CentredReproduces(c: Matrix, sidePoints: nat, s: seq<real>)
    requires IsMatrix(c, FrameSize(sidePoints), FrameSize(sidePoints))
    requires Reproduces(c, sidePoints, s) && FrameSize(sidePoints) <= |s|
    ensures SmoothCentred(c, sidePoints, s) == Some(s)
  {
    var r := SmoothCentred(c, sidePoints, s).value;
    forall n | 0 <= n < |s|
      ensures r[n] == s[n]
    {
      var start := WindowStart(sidePoints, |s|, n);
      assert r[n] == Dot(Column(c, n - start), Window(s, start, FrameSize(sidePoints)));
    }
    assert r == s;
  }

  /** The n×n identity matrix: the coefficients the design yields whenever the
      polynomial order is 2·sidePoints, since the basis is then square and invertible. */
  function Identity(n: nat): (c: Matrix)
    ensures IsMatrix(c, n, n)
  {
    seq(n, r => seq(n, col => if r == col then 1.0 else 0.0))
  }

  /** Unit vector e_j of length n. */
  function Unit(n: nat, j: nat): seq<real>
  {
    seq(n, k => if k == j then 1.0 else 0.0)
  }

  lemma {:induction false} DotUnit(n: nat, j: nat, w: seq<real>)
    requires |w| == n
    ensures Dot(Unit(n, j), w) == if j < n then w[j] else 0.0
  {
    if n > 0 {
      var u := Unit(n, j);
      assert u[..n - 1] == Unit(n - 1, j);
      DotUnit(n - 1, j, w[..n - 1]);
    }
  }

  /** The identity reproduces every reading. */
  lemma IdentityReproduces(sidePoints: nat, s: seq<real>)
    ensures Reproduces(Identity(FrameSize(sidePoints)), sidePoints, s)
  {
    var size := FrameSize(sidePoints);
    var c := Identity(size);
    forall start, j | 0 <= j < size && 0 <= start && start + size <= |s|
      ensures Dot(Column(c, j), Window(s, start, size)) == s[start + j]
    {
      assert Column(c, j) == Unit(size, j);
      DotUnit(size, j, Window(s, start, size));
    }
  }

  /** Counterexample to the filter as written: with the identity as coefficients
      and one side point, the ramp 0, 1, 2, 3, 4 comes back as 0, 1, 3, 4, 4. The
      interior output 2 reads column 2 (the sample after the centre) and the
      trailing output 3 reads a frame shifted by one, while the corrected filter
      returns the ramp unchanged. */
  lemma AsWrittenMovesRamp()
    ensures Smooth(Identity(3), 1, [0.0, 1.0, 2.0, 3.0, 4.0]) == Some([0.0, 1.0, 3.0, 4.0, 4.0])
    ensures SmoothCentred(Identity(3), 1, [0.0, 1.0, 2.0, 3.0, 4.0]) == Some([0.0, 1.0, 2.0, 3.0, 4.0])
  {
    var s := [0.0, 1.0, 2.0, 3.0, 4.0];
    var c := Identity(3);
    assert InteriorAt(c, 1, s, 2) == 3.0 by {
      assert Column(c, 2) == Unit(3, 2);
      DotUnit(3, 2, Window(s, 1, 3));
    }
    assert TrailingFrame(s, 1) == [3.0, 4.0, 4.0];
    forall i | 0 <= i <= 1
      ensures TrailingAt(c, 1, s, i) == TrailingFrame(s, 1)[1 + i]
    {
      assert Column(c, 1 + i) == Unit(3, 1 + i);
      DotUnit(3, 1 + i, TrailingFrame(s, 1));
    }
    forall i | 0 <= i <= 1
      ensures LeadingAt(c, 1, s, i) == s[i]
    {
      assert Column(c, i) == Unit(3, i);
      DotUnit(3, i, Window(s, 0, 3));
    }
    assert Smooth(c, 1, s).value == [0.0, 1.0, 3.0, 4.0, 4.0];
    IdentityReproduces(1, s);
    CentredReproduces(c, 1, s);
  }

  /** With no side points the filter as written throws on every reading of two or
      more samples, though a one-sample window is well defined: the corrected filter
      with the 1×1 identity returns the reading unchanged. */
  lemma ZeroSidePoints(s: seq<real>)
    requires |s| > 1
    ensures Smooth(Identity(1), 0, s).None?
    ensures SmoothCentred(Identity(1), 0, s) == Some(s)
  {
    IdentityReproduces(0, s);
    CentredReproduces(Identity(1), 0, s);
  }
}
