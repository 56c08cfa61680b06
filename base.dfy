/** Small failure-carrying datatypes shared by every component of the model. */
module Base {

  datatype Option<+T> = None | Some(value: T)

  /** The runtime_error conditions the C++ code throws, one constructor per kind. */
  datatype Error =
    | OpenError          // fopen returned NULL
    | BadMagic           // the first word of a file is not 0xFAF32000
    | ShortRead          // fread returned fewer than the one requested item
    | ShortWrite         // fwrite returned fewer than the one requested item
    | BufferOverflow     // a stored length exceeds the 128 KiB buffer it is read into
    | SizeMismatch       // a tagged block's length does not fit the image of its tag
    | MissingRecord      // writeMerge: no event at the indexed offset
    | UnknownInfoType    // writeMerge: info tag outside LPA .. LCI_TKR
    | BadIndexLine       // writeMerge: an index line whose fields do not all extract

  datatype Result<+T> = Ok(value: T) | Fail(error: Error)

  /** The void-returning routines: either they returned, or they threw. */
  datatype Outcome = Pass | Throw(error: Error)
}
