/** The compressor core shared by both copies of compressor.py: the
    single-channel and multi-channel compressors, their rank-k
    reconstruction, and the singular value inspector. */
module Engine {
  import opened Linear
  import opened Py
  import opened Images

  /** What the compressor constructors return. In the source each is a
      closure; here the captured state is explicit. */
  datatype Compressor =
    | Sentinel                                        // `lambda _: None`
    | SingleChannel(svd: Svd)                         // the factors of one 'L' array
    | MultiChannel(maxRank: nat, channels: seq<Svd>)  // min(size), one factorisation per band

  /** What calling a compressor returns. */
  datatype Value =
    | NoneValue                                       // Python None
    | FalseValue                                      // Python False
    | Plane(m: Matrix)                                // a 2-D array
    | Stack(rows: nat, cols: nat, depth: nat, cells: seq<seq<seq<real>>>)  // a 3-D array, [row][col][band]

  /** The number of array dimensions, `.ndim`, of an array value. */
  function Ndim(v: Value): nat
    requires v.Plane? || v.Stack?
  {
    if v.Plane? then 2 else 3
  }

  /** The rank-k range a single-channel compressor asserts. */
  predicate Accepts(f: Svd, k: int)
  {
    1 <= k <= Rank(f)
  }

  lemma ReconstructionEntries(f: Svd, k: nat)
    requires 1 <= k <= Rank(f)
    ensures IsGrid(Product(f), f.rows, f.cols) && IsGrid(Product(Truncate(f, k)), f.rows, f.cols)
    ensures forall i, j :: 0 <= i < f.rows && 0 <= j < f.cols ==>
      Product(Truncate(f, k))[i][j] == Term(f, i, j, k)
    ensures k == Rank(f) ==> forall i, j :: 0 <= i < f.rows && 0 <= j < f.cols ==>
      Product(f)[i][j] == Term(f, i, j, k)
  {
    assert IsGrid(Product(f), f.rows, f.cols);
    assert IsGrid(Product(Truncate(f, k)), f.rows, f.cols);
    forall i, j | 0 <= i < f.rows && 0 <= j < f.cols
      ensures Product(Truncate(f, k))[i][j] == Term(f, i, j, k)
      ensures k == Rank(f) ==> Product(f)[i][j] == Term(f, i, j, k)
    {
      TruncatedEntry(f, k, i, j);
      ProductEntry(f, i, j);
    }
  }

  /** The body of `rank_k_approx` once its asserts pass: the truncated
      product, replaced by the full product when k is the rank. Either way
      entry (i, j) is the sum over t < k of U[i][t] * S[t] * Vh[t][j]. */
  function Reconstruct(f: Svd, k: nat): (m: Matrix)
    requires 1 <= k <= Rank(f)
    ensures m.rows == f.rows && m.cols == f.cols && WellShaped(m)
    ensures forall i, j :: 0 <= i < f.rows && 0 <= j < f.cols ==> m.cells[i][j] == Term(f, i, j, k)
  {
    ReconstructionEntries(f, k);
    var lowRankApprox := Product(Truncate(f, k));
    Matrix(f.rows, f.cols, if k == Rank(f) then Product(f) else lowRankApprox)
  }

  /** The per-channel results of a multi-channel call, in band order; a
      channel whose assert fails raises. Every failure is the same
      AssertionError and the calls have no other effect, so which channel
      fails first cannot be observed. */
  function ApplyChannels(channels: seq<Svd>, k: int): (r: Py<seq<Matrix>>)
    ensures r.Raise? <==> exists c :: 0 <= c < |channels| && !Accepts(channels[c], k)
    ensures r.Raise? ==> r.error == AssertionError
    ensures r.Return? ==> (|r.value| == |channels| &&
      forall c :: 0 <= c < |channels| ==> Accepts(channels[c], k) && r.value[c] == Reconstruct(channels[c], k))
  {
    if forall c :: 0 <= c < |channels| ==> Accepts(channels[c], k) then
      Return(seq(|channels|, c requires 0 <= c < |channels| => Reconstruct(channels[c], k)))
    else Raise(AssertionError)
  }

  /** Every matrix has the shape of the first. */
  predicate SameShape(ms: seq<Matrix>)
    requires |ms| > 0
  {
    forall c :: 0 <= c < |ms| ==> ms[c].rows == ms[0].rows && ms[c].cols == ms[0].cols
  }

  /** Matrices of one shape can be indexed alike. */
  lemma SameShapeCells(ms: seq<Matrix>)
    requires forall c :: 0 <= c < |ms| ==> WellShaped(ms[c])
    requires |ms| > 0 && SameShape(ms)
    ensures forall c :: 0 <= c < |ms| ==> |ms[c].cells| == ms[0].rows
    ensures forall c, i :: 0 <= c < |ms| && 0 <= i < ms[0].rows ==> |ms[c].cells[i]| == ms[0].cols
  {
    forall c, i | 0 <= c < |ms| && 0 <= i < ms[0].rows
      ensures |ms[c].cells| == ms[0].rows && |ms[c].cells[i]| == ms[0].cols
    {
      assert WellShaped(ms[c]);
    }
  }

  predicate IsVolume(v: seq<seq<seq<real>>>, rows: nat, cols: nat, depth: nat)
  {
    |v| == rows &&
    forall i :: 0 <= i < rows ==> |v[i]| == cols && forall j :: 0 <= j < cols ==> |v[i][j]| == depth
  }

  /** `np.dstack(ms)` inside `try`/`except`: the matrices stacked depth-wise,
      or False when there is nothing to stack or the shapes disagree. */
  function DStack(ms: seq<Matrix>): (v: Value)
    requires forall c :: 0 <= c < |ms| ==> WellShaped(ms[c])
    ensures v.FalseValue? <==> |ms| == 0 || !SameShape(ms)
    ensures !v.FalseValue? ==> v.Stack? && v.rows == ms[0].rows && v.cols == ms[0].cols && v.depth == |ms|
    ensures v.Stack? ==> (|ms| > 0 && SameShape(ms) && v.depth == |ms| && IsVolume(v.cells, v.rows, v.cols, v.depth) &&
      (forall c :: 0 <= c < |ms| ==> |ms[c].cells| == v.rows) &&
      (forall c, i :: 0 <= c < |ms| && 0 <= i < v.rows ==> |ms[c].cells[i]| == v.cols) &&
      forall i, j, c :: 0 <= i < v.rows && 0 <= j < v.cols && 0 <= c < |ms| ==>
        v.cells[i][j][c] == ms[c].cells[i][j])
  {
    if |ms| == 0 || !SameShape(ms) then FalseValue
    else
      var rows, cols := ms[0].rows, ms[0].cols;
      SameShapeCells(ms);
      Stack(rows, cols, |ms|,
        seq(rows, i requires 0 <= i < rows =>
          seq(cols, j requires 0 <= j < cols =>
            seq(|ms|, c requires 0 <= c < |ms| => ms[c].cells[i][j]))))
  }

  /** Calling a compressor with rank k (`rank_k_approx(k)`, or the sentinel). */
  function Apply(c: Compressor, k: int): (r: Py<Value>)
    ensures c.Sentinel? ==> r == Return(NoneValue)
    ensures c.SingleChannel? ==> (r.Raise? <==> !Accepts(c.svd, k))
    ensures r.Raise? ==> r.error == AssertionError
    ensures c.SingleChannel? && r.Return? ==>
      r.value.Plane? && r.value.m.rows == c.svd.rows && r.value.m.cols == c.svd.cols && WellShaped(r.value.m) &&
      forall i, j :: 0 <= i < c.svd.rows && 0 <= j < c.svd.cols ==> r.value.m.cells[i][j] == Term(c.svd, i, j, k)
    ensures c.MultiChannel? && r.Return? ==> r.value.FalseValue? || r.value.Stack?
  {
    match c
    case Sentinel => Return(NoneValue)
    case SingleChannel(f) =>
      if k < 1 then Raise(AssertionError)
      else if k > Rank(f) then Raise(AssertionError)
      else Return(Plane(Reconstruct(f, k)))
    case MultiChannel(maxRank, channels) =>
      if k > maxRank then Raise(AssertionError)
      else
        match ApplyChannels(channels, k)
        case Raise(e) => Raise(e)
        case Return(planes) => Return(DStack(planes))
  }

  /** All channels have the same height and width. */
  predicate ChannelsAgree(channels: seq<Svd>)
  {
    forall c :: 0 <= c < |channels| ==> channels[c].rows == channels[0].rows && channels[c].cols == channels[0].cols
  }

  /** A multi-channel call raises exactly when k exceeds the captured
      min(size) or some channel rejects k; otherwise it is False exactly when
      there are no channels or their shapes disagree, and otherwise plane c of
      the stack is channel c's rank-k reconstruction. */
  lemma MultiChannelResult(maxRank: nat, channels: seq<Svd>, k: int)
    ensures var r := Apply(MultiChannel(maxRank, channels), k);
      && (r.Raise? <==> k > maxRank || exists c :: 0 <= c < |channels| && !Accepts(channels[c], k))
      && (r == Return(FalseValue) <==> !r.Raise? && (|channels| == 0 || !ChannelsAgree(channels)))
      && (r.Return? && r.value.Stack? ==>
            r.value.depth == |channels| && r.value.rows == channels[0].rows && r.value.cols == channels[0].cols &&
            IsVolume(r.value.cells, r.value.rows, r.value.cols, r.value.depth) &&
            forall i, j, c :: 0 <= i < r.value.rows && 0 <= j < r.value.cols && 0 <= c < |channels| ==>
              r.value.cells[i][j][c] == Term(channels[c], i, j, k))
  {
    var r := Apply(MultiChannel(maxRank, channels), k);
    if k <= maxRank {
      var p := ApplyChannels(channels, k);
      if p.Return? {
        var planes := p.value;
        if |channels| > 0 {
          assert SameShape(planes) <==> ChannelsAgree(channels) by {
            assert forall c :: 0 <= c < |channels| ==>
              planes[c].rows == channels[c].rows && planes[c].cols == channels[c].cols;
          }
        }
      }
    }
  }

  /** The multi-channel call checks only the upper bound itself: below 1 it
      raises because a channel rejects k, and with no channels it returns
      False instead. */
  lemma MultiChannelLowerBound(maxRank: nat, channels: seq<Svd>, k: int)
    requires k < 1
    ensures |channels| > 0 ==> Apply(MultiChannel(maxRank, channels), k) == Raise(AssertionError)
    ensures |channels| == 0 ==> Apply(MultiChannel(maxRank, channels), k) == Return(FalseValue)
  {
    if |channels| > 0 {
      assert !Accepts(channels[0], k);
    }
  }

  /** On the full-rank path the result is the full product U @ diag(S) @ Vh,
      which equals the truncated product at k = r. */
  lemma FullRankPathAgrees(f: Svd)
    requires Rank(f) >= 1
    ensures Reconstruct(f, Rank(f)).cells == Product(f)
    ensures Product(f) == Product(Truncate(f, Rank(f)))
  {
    TruncateAll(f);
  }

  /** With exact factors of a channel (U @ diag(S) @ Vh equals its pixel
      array), the full-rank reconstruction returns that array. */
  lemma FullRankIsLossless(f: Svd, pixels: Grid)
    requires Rank(f) >= 1 && Product(f) == pixels
    ensures Apply(SingleChannel(f), Rank(f)) == Return(Plane(Matrix(f.rows, f.cols, pixels)))
  {
    TruncateAll(f);
  }

  /** `singleChannelImageCompressor`: the sentinel for anything that is not a
      mode-'L' image; otherwise the factors of its array, after asserting that
      their count r is at most min(width, height). */
  function SingleChannelImageCompressor(obj: Obj): (r: Py<Compressor>)
    ensures r == Return(Sentinel) <==> !(obj.ImageObj? && obj.image.mode == "L")
    ensures r.Raise? ==> r.error == AssertionError && obj.ImageObj? && Rank(obj.image.luma) > MinSide(obj.image)
    ensures r.Return? && r != Return(Sentinel) ==>
      obj.ImageObj? && r.value == SingleChannel(obj.image.luma) && Rank(r.value.svd) <= MinSide(obj.image)
  {
    if !(obj.ImageObj? && obj.image.mode == "L") then Return(Sentinel)
    else
      var maxRank := MinSide(obj.image);
      // For a mode-'L' image, `luma` is the array of its only band.
      var factors := obj.image.luma;
      if Rank(factors) <= maxRank then Return(SingleChannel(factors)) else Raise(AssertionError)
  }

  /** A reduced decomposition has r = min(rows, cols) factors, so for a
      mode-'L' image whose array is height x width the assert always passes. */
  lemma ReducedFactorsPassAssert(img: Image)
    requires img.mode == "L"
    requires img.luma.rows == img.height && img.luma.cols == img.width
    requires Rank(img.luma) == Min(img.luma.rows, img.luma.cols)
    ensures SingleChannelImageCompressor(ImageObj(img)) == Return(SingleChannel(img.luma))
  {
  }

  /** One single-channel compressor per band, built in `getbands()` order;
      the first failing assert raises. */
  function BuildChannels(img: Image, bands: seq<Band>): (r: Py<seq<Svd>>)
    ensures r.Raise? <==> exists c :: 0 <= c < |bands| && Rank(bands[c].svd) > MinSide(img)
    ensures r.Raise? ==> r.error == AssertionError
    ensures r.Return? ==> |r.value| == |bands| && forall c :: 0 <= c < |bands| ==> r.value[c] == bands[c].svd
  {
    if |bands| == 0 then Return([])
    else
      match SingleChannelImageCompressor(ImageObj(GetChannel(img, bands[0])))
      case Raise(e) => Raise(e)
      case Return(first) =>
        match BuildChannels(img, bands[1..])
        case Raise(e) => Raise(e)
        case Return(rest) =>
          assert forall c :: 1 <= c < |bands| ==> bands[c] == bands[1..][c - 1];
          Return([first.svd] + rest)
  }

  /** `multiChannelImageCompressor`: the sentinel for a non-image; otherwise
      min(width, height) and one channel per band in band order. */
  function MultiChannelImageCompressor(obj: Obj): (r: Py<Compressor>)
    ensures r == Return(Sentinel) <==> !obj.ImageObj?
    ensures obj.ImageObj? ==>
      (r.Raise? <==> exists c :: 0 <= c < |obj.image.bands| && Rank(obj.image.bands[c].svd) > MinSide(obj.image))
    ensures r.Raise? ==> r.error == AssertionError
    ensures obj.ImageObj? && r.Return? ==>
      r.value.MultiChannel? && r.value.maxRank == MinSide(obj.image) &&
      |r.value.channels| == |obj.image.bands| &&
      forall c :: 0 <= c < |obj.image.bands| ==> r.value.channels[c] == obj.image.bands[c].svd
  {
    if !obj.ImageObj? then Return(Sentinel)
    else
      var maxRank := MinSide(obj.image);
      match BuildChannels(obj.image, obj.image.bands)
      case Raise(e) => Raise(e)
      case Return(channels) => Return(MultiChannel(maxRank, channels))
  }

  /** The image's bands have reduced factors of its height x width arrays. */
  predicate ReducedBands(img: Image)
  {
    forall c :: 0 <= c < |img.bands| ==>
      img.bands[c].svd.rows == img.height && img.bands[c].svd.cols == img.width &&
      Rank(img.bands[c].svd) == MinSide(img)
  }

  /** For an image with at least one band and reduced factors, every rank
      from 1 to min(width, height) yields a stack with one plane per band,
      never False. */
  lemma MultiChannelOnReducedImage(img: Image, k: int)
    requires ReducedBands(img) && |img.bands| > 0 && 1 <= k <= MinSide(img)
    ensures MultiChannelImageCompressor(ImageObj(img)).Return?
    ensures var r := Apply(MultiChannelImageCompressor(ImageObj(img)).value, k);
      r.Return? && r.value.Stack? && r.value.depth == |img.bands| &&
      r.value.rows == img.height && r.value.cols == img.width
  {
    var c := MultiChannelImageCompressor(ImageObj(img)).value;
    MultiChannelResult(c.maxRank, c.channels, k);
  }

  /** Two bands whose arrays have different shapes make the multi-channel
      call return False, distinct from the sentinel's None. */
  lemma MismatchedBandsGiveFalse(f: Svd, g: Svd, k: int)
    requires Accepts(f, k) && Accepts(g, k) && f.rows != g.rows
    ensures Apply(MultiChannel(k, [f, g]), k) == Return(FalseValue)
    ensures Apply(MultiChannel(k, [f, g]), k) != Apply(Sentinel, k)
  {
    MultiChannelResult(k, [f, g], k);
    assert !ChannelsAgree([f, g]) by {
      assert [f, g][1].rows != [f, g][0].rows;
    }
  }

  /** What `singularValues` returns. */
  datatype Spectrum =
    | Uninitialised                   // `np.ndarray([])`: a 0-d array of unspecified content
    | Spectra(values: seq<seq<real>>) // one row of singular values per band

  /** All bands have the same number of singular values. */
  predicate EqualCounts(bands: seq<Band>)
  {
    forall c :: 0 <= c < |bands| ==> |bands[c].svd.s| == |bands[0].svd.s|
  }

  /** `singularValues`: nothing usable for a non-image; otherwise the
      singular values of each band in band order, which numpy can stack only
      when every band has the same number of them. */
  function SingularValues(obj: Obj): (r: Py<Spectrum>)
    ensures !obj.ImageObj? ==> r == Return(Uninitialised)
    ensures obj.ImageObj? ==> (r.Raise? <==> !EqualCounts(obj.image.bands))
    ensures r.Raise? ==> r.error == ValueError
    ensures obj.ImageObj? && r.Return? ==>
      r.value.Spectra? && |r.value.values| == |obj.image.bands| &&
      forall c :: 0 <= c < |obj.image.bands| ==> r.value.values[c] == obj.image.bands[c].svd.s
  {
    if !obj.ImageObj? then Return(Uninitialised)
    else
      var bands := obj.image.bands;
      var channelSingularVal := seq(|bands|, c requires 0 <= c < |bands| => bands[c].svd.s);
      if EqualCounts(bands) then Return(Spectra(channelSingularVal)) else Raise(ValueError)
  }
}
