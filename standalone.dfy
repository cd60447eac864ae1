/** The entry points of svd-compression-worker/compressor.py, which accept
    local files only. Its single- and multi-channel compressors and its
    singular value inspector are the same code as in worker/compressor.py and
    are modelled once, in Engine. */
module Standalone {
  import opened Py
  import opened Images
  import opened Engine
  import opened Linear
  import opened Text
  import Worker

  /** `minLength`: min(width, height) of an image or of the image in an
      existing file; None for any other object and for a string that is not
      a file. */
  function MinLength(env: Env, obj: Obj): (r: Py<Option<nat>>)
    ensures r == Return(None) <==> obj.OtherObj? || (obj.StrObj? && !IsFile(env, obj.s))
    ensures obj.ImageObj? ==> r == Return(Some(MinSide(obj.image)))
    ensures obj.StrObj? && IsFile(env, obj.s) ==>
      (r.Raise? <==> Open(env, obj.s).Raise?) &&
      (Open(env, obj.s).Raise? ==> r == Raise(Open(env, obj.s).error)) &&
      (r.Return? ==> r.value == Some(MinSide(Open(env, obj.s).value)))
  {
    var imageObj :=
      if obj.StrObj? then
        (if IsFile(env, obj.s) then
           match Open(env, obj.s)
           case Raise(e) => Raise(e)
           case Return(img) => Return(ImageObj(ConvertL(img)))
         else Return(OtherObj))
      else Return(obj);
    match imageObj
    case Raise(e) => Raise(e)
    case Return(o) => if !o.ImageObj? then Return(None) else Return(Some(MinSide(o.image)))
  }

  /** `grayScaleImageCompression`: the sentinel exactly when the path is not
      a file; otherwise the single-channel compressor of the image converted
      to 'L'. */
  function GrayScaleImageCompression(env: Env, path: string): (r: Py<Compressor>)
    ensures r == Return(Sentinel) <==> !IsFile(env, path)
    ensures r.Return? && r.value != Sentinel ==>
      Open(env, path).Return? && r.value == SingleChannel(ConvertL(Open(env, path).value).luma)
    ensures IsFile(env, path) ==>
      var im := Open(env, path);
      (r.Raise? <==> im.Raise? || Rank(ConvertL(im.value).luma) > MinSide(im.value)) &&
      (im.Raise? ==> r == Raise(im.error)) &&
      (im.Return? && r.Raise? ==> r.error == AssertionError)
  {
    if !IsFile(env, path) then Return(Sentinel)
    else
      match Open(env, path)
      case Raise(e) => Raise(e)
      case Return(img) => SingleChannelImageCompressor(ImageObj(ConvertL(img)))
  }

  /** `RGBImageCompression`: the sentinel exactly when the path is not a
      file; otherwise the multi-channel compressor of the image as opened. */
  function RGBImageCompression(env: Env, path: string): (r: Py<Compressor>)
    ensures r == Return(Sentinel) <==> !IsFile(env, path)
    ensures r.Return? && r.value != Sentinel ==>
      var im := Open(env, path);
      im.Return? && r.value.MultiChannel? && r.value.maxRank == MinSide(im.value) &&
      |r.value.channels| == |im.value.bands| &&
      forall c :: 0 <= c < |im.value.bands| ==> r.value.channels[c] == im.value.bands[c].svd
    ensures IsFile(env, path) ==>
      var im := Open(env, path);
      (r.Raise? <==>
        im.Raise? || exists c :: 0 <= c < |im.value.bands| && Rank(im.value.bands[c].svd) > MinSide(im.value)) &&
      (im.Raise? ==> r == Raise(im.error)) &&
      (im.Return? && r.Raise? ==> r.error == AssertionError)
  {
    if !IsFile(env, path) then Return(Sentinel)
    else
      match Open(env, path)
      case Raise(e) => Raise(e)
      case Return(img) => MultiChannelImageCompressor(ImageObj(img))
  }

  /** The two copies differ only on URLs: for a URL that is not also a local
      file this copy gives None and the sentinel, where worker/compressor.py
      fetches the image; on every other path they agree, and the two
      `minLength` copies agree on every image. */
  lemma CopiesDifferOnlyOnUrls(env: Env, path: string)
    ensures !StartsWith(path, Worker.UrlPrefix) ==>
      MinLength(env, StrObj(path)) == Worker.MinLength(env, StrObj(path)) &&
      GrayScaleImageCompression(env, path) == Worker.GrayScaleImageCompression(env, path) &&
      RGBImageCompression(env, path) == Worker.RGBImageCompression(env, path)
    ensures StartsWith(path, Worker.UrlPrefix) && !IsFile(env, path) ==>
      MinLength(env, StrObj(path)) == Return(None) &&
      GrayScaleImageCompression(env, path) == Return(Sentinel) &&
      RGBImageCompression(env, path) == Return(Sentinel) &&
      Worker.MinLength(env, StrObj(path)) != Return(None) &&
      Worker.GrayScaleImageCompression(env, path) != Return(Sentinel)
    ensures forall img :: MinLength(env, ImageObj(img)) == Worker.MinLength(env, ImageObj(img))
  {
  }
}
