/** The Python-level outcomes the modelled functions can produce: a returned
    value or a raised exception. */
module Py {

  datatype Option<T> = None | Some(value: T)

  /** The exceptions the modelled code raises or lets propagate. */
  datatype Exception =
    | AssertionError            // a failed `assert`
    | TypeError                 // arithmetic on None (`20 * None`)
    | AttributeError            // `.ndim` or `Image.fromarray` given a value that is not an array
    | ValueError                // numpy refusing a ragged stack of spectra, or `Image.fromarray`
                                // refusing an array of the wrong dimensions for the mode
    | FileNotFoundError         // `Image.open` of a path that is not a file
    | UnidentifiedImageError    // `Image.open` of bytes that are not an image
    | ConnectionError           // `requests.get` of an unreachable URL

  /** A call either returns a value or raises an exception. */
  datatype Py<T> = Return(value: T) | Raise(error: Exception)
}
