/**
 * Result types standing in for the exceptions the save system throws and catches.
 */
module Wrappers {

  /** The kinds of exception the modelled code can raise. */
  datatype Error =
    | FileNotFound        // File.Move on a missing source file
    | IOError             // File.Move onto an existing destination file
    | CryptoError         // an AES key of invalid size, or ciphertext that does not decrypt
    | OverflowError       // a negative array size (ciphertext shorter than its IV)
    | CompressionError    // a corrupt GZIP stream
    | SerializationError  // JSON text that does not deserialize
    | ConversionError     // a cached value that cannot be converted to the requested type

  datatype Option<+T> = None | Some(value: T)

  datatype Result<+T> = Success(value: T) | Failure(error: Error)

  /** The outcome of a call that returns nothing but may throw. */
  datatype Outcome = Pass | Fail(error: Error)
}
