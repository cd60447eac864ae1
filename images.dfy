/** Images as the compressor sees them, and the file system and web they are
    loaded from. Decoding and the singular value decomposition of each pixel
    array are not computed here: every band carries the factors of its array. */
module Images {
  import opened Linear
  import opened Py

  /** One band of an image (`getbands()` gives the tags in order), with the
      factors of its height x width pixel array. */
  datatype Band = Band(tag: string, svd: Svd)

  /** A decoded image: its mode, its size, its bands in order and the factors
      of the array that `convert('L')` produces from it. */
  datatype RawImage = Image(mode: string, width: nat, height: nat, bands: seq<Band>, luma: Svd)

  /** A mode-'L' image has the single band "L", and converting it to 'L'
      leaves its array unchanged. The only one-band mode modelled is 'L', so
      that every channel `getchannel` extracts is an 8-bit 'L' image. */
  predicate Consistent(img: RawImage)
  {
    && (img.mode == "L" ==> img.bands == [Band("L", img.luma)])
    && (|img.bands| == 1 ==> img.mode == "L")
  }

  type Image = img: RawImage | Consistent(img)
    witness Image("L", 0, 0, [Band("L", Factors(0, 0, [], [], []))], Factors(0, 0, [], [], []))

  /** A Python argument whose type the code inspects with `isinstance`. */
  datatype Obj = ImageObj(image: Image) | StrObj(s: string) | OtherObj

  /** A file's content: an image PIL can decode, or anything else. */
  datatype File = ImageFile(image: Image) | DataFile

  /** The existing files by path, and what fetching each reachable URL returns. */
  datatype Env = Env(files: map<string, File>, web: map<string, File>)

  function Min(a: nat, b: nat): nat
  {
    if a <= b then a else b
  }

  function Max(a: nat, b: nat): nat
  {
    if a <= b then b else a
  }

  /** `min(image.size)`. */
  function MinSide(img: Image): nat
  {
    Min(img.width, img.height)
  }

  /** `os.path.isfile(path)`. */
  predicate IsFile(env: Env, path: string)
  {
    path in env.files
  }

  function Decode(f: File): (r: Py<Image>)
    ensures r.Return? <==> f.ImageFile?
    ensures r.Return? ==> r.value == f.image
    ensures r.Raise? ==> r.error == UnidentifiedImageError
  {
    match f
    case ImageFile(img) => Return(img)
    case DataFile => Raise(UnidentifiedImageError)
  }

  /** `Image.open(path)`. */
  function Open(env: Env, path: string): (r: Py<Image>)
    ensures !IsFile(env, path) ==> r == Raise(FileNotFoundError)
    ensures IsFile(env, path) ==> r == Decode(env.files[path])
    ensures r.Return? ==> IsFile(env, path) && env.files[path] == ImageFile(r.value)
  {
    if path in env.files then Decode(env.files[path]) else Raise(FileNotFoundError)
  }

  /** `Image.open(BytesIO(requests.get(url).content))`. */
  function Fetch(env: Env, url: string): (r: Py<Image>)
    ensures url !in env.web ==> r == Raise(ConnectionError)
    ensures url in env.web ==> r == Decode(env.web[url])
    ensures r.Return? ==> url in env.web && env.web[url] == ImageFile(r.value)
  {
    if url in env.web then Decode(env.web[url]) else Raise(ConnectionError)
  }

  /** `image.convert('L')`: same size, one band holding the luminance array
      the image carries; an 'L' image is returned as it is. */
  function ConvertL(img: Image): (r: Image)
    ensures r.mode == "L" && r.width == img.width && r.height == img.height
    ensures r.luma == img.luma && r.bands == [Band("L", img.luma)]
    ensures img.mode == "L" ==> r == img
  {
    if img.mode == "L" then img else Image("L", img.width, img.height, [Band("L", img.luma)], img.luma)
  }

  /** `image.getchannel(band)`: a mode-'L' image of the same size holding that
      band. A one-band image is copied as it is, which for the modelled
      images is the same mode-'L' image. */
  function GetChannel(img: Image, b: Band): (r: Image)
    ensures r.mode == "L" && r.width == img.width && r.height == img.height
    ensures r.bands == [Band("L", b.svd)]
    ensures |img.bands| == 1 && b in img.bands ==> r == img
  {
    Image("L", img.width, img.height, [Band("L", b.svd)], b.svd)
  }
}
