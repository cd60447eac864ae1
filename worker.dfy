/** The entry points of worker/compressor.py, which accept a local path or an
    https URL. */
module Worker {
  import opened Py
  import opened Images
  import opened Engine
  import opened Text
  import opened Linear

  const UrlPrefix: string := "https://"

  /** `minLength`: min(width, height) of an image, of the image at a URL, or of
      the image in a file; None for an object that is neither, and for a
      string that is neither a URL nor a file. */
  function MinLength(env: Env, obj: Obj): (r: Py<Option<nat>>)
    ensures r == Return(None) <==>
      obj.OtherObj? || (obj.StrObj? && !StartsWith(obj.s, UrlPrefix) && !IsFile(env, obj.s))
    ensures obj.ImageObj? ==> r == Return(Some(MinSide(obj.image)))
    ensures obj.StrObj? && StartsWith(obj.s, UrlPrefix) ==>
      (r.Raise? <==> Fetch(env, obj.s).Raise?) &&
      (Fetch(env, obj.s).Raise? ==> r == Raise(Fetch(env, obj.s).error)) &&
      (r.Return? ==> r.value == Some(MinSide(Fetch(env, obj.s).value)))
    ensures obj.StrObj? && !StartsWith(obj.s, UrlPrefix) && IsFile(env, obj.s) ==>
      (r.Raise? <==> Open(env, obj.s).Raise?) &&
      (Open(env, obj.s).Raise? ==> r == Raise(Open(env, obj.s).error)) &&
      (r.Return? ==> r.value == Some(MinSide(Open(env, obj.s).value)))
  {
    match obj
    case StrObj(s) =>
      if StartsWith(s, UrlPrefix) then
        match Fetch(env, s)
        case Raise(e) => Raise(e)
        case Return(img) => Return(Some(MinSide(img)))
      else if IsFile(env, s) then
        match Open(env, s)
        case Raise(e) => Raise(e)
        case Return(img) => Return(Some(MinSide(ConvertL(img))))
      else Return(None)
    case ImageObj(img) => Return(Some(MinSide(img)))
    case OtherObj => Return(None)
  }

  /** `grayScaleImageCompression`: the sentinel exactly when the path is
      neither a URL nor a file; otherwise the single-channel compressor of
      the image converted to 'L'. */
  function GrayScaleImageCompression(env: Env, path: string): (r: Py<Compressor>)
    ensures r == Return(Sentinel) <==> !StartsWith(path, UrlPrefix) && !IsFile(env, path)
    ensures r.Return? && r.value != Sentinel ==>
      var im := if StartsWith(path, UrlPrefix) then Fetch(env, path) else Open(env, path);
      im.Return? && r.value == SingleChannel(ConvertL(im.value).luma)
    ensures StartsWith(path, UrlPrefix) || IsFile(env, path) ==>
      var im := if StartsWith(path, UrlPrefix) then Fetch(env, path) else Open(env, path);
      (r.Raise? <==> im.Raise? || Rank(ConvertL(im.value).luma) > MinSide(im.value)) &&
      (im.Raise? ==> r == Raise(im.error)) &&
      (im.Return? && r.Raise? ==> r.error == AssertionError)
  {
    if StartsWith(path, UrlPrefix) then
      match Fetch(env, path)
      case Raise(e) => Raise(e)
      case Return(img) => SingleChannelImageCompressor(ImageObj(ConvertL(img)))
    else if IsFile(env, path) then
      match Open(env, path)
      case Raise(e) => Raise(e)
      case Return(img) => SingleChannelImageCompressor(ImageObj(ConvertL(img)))
    else Return(Sentinel)
  }

  /** `RGBImageCompression`: the sentinel exactly when the path is neither a
      URL nor a file; otherwise the multi-channel compressor of the image as
      opened, one channel per band in band order. */
  function RGBImageCompression(env: Env, path: string): (r: Py<Compressor>)
    ensures r == Return(Sentinel) <==> !StartsWith(path, UrlPrefix) && !IsFile(env, path)
    ensures r.Return? && r.value != Sentinel ==>
      var im := if StartsWith(path, UrlPrefix) then Fetch(env, path) else Open(env, path);
      im.Return? && r.value.MultiChannel? && r.value.maxRank == MinSide(im.value) &&
      |r.value.channels| == |im.value.bands| &&
      forall c :: 0 <= c < |im.value.bands| ==> r.value.channels[c] == im.value.bands[c].svd
    ensures StartsWith(path, UrlPrefix) || IsFile(env, path) ==>
      var im := if StartsWith(path, UrlPrefix) then Fetch(env, path) else Open(env, path);
      (r.Raise? <==>
        im.Raise? || exists c :: 0 <= c < |im.value.bands| && Rank(im.value.bands[c].svd) > MinSide(im.value)) &&
      (im.Raise? ==> r == Raise(im.error)) &&
      (im.Return? && r.Raise? ==> r.error == AssertionError)
  {
    if StartsWith(path, UrlPrefix) then
      match Fetch(env, path)
      case Raise(e) => Raise(e)
      case Return(img) => MultiChannelImageCompressor(ImageObj(img))
    else if IsFile(env, path) then
      match Open(env, path)
      case Raise(e) => Raise(e)
      case Return(img) => MultiChannelImageCompressor(ImageObj(img))
    else Return(Sentinel)
  }
}
