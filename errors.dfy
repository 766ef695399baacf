/**
 * The errors the core throws: the two typed errors of src/errors.ts, the
 * plain `Error`s thrown with a literal message, and the `TypeError` the
 * runtime raises when code reads a property of `undefined`.
 */
module Errors {

  datatype Error =
    | NetworkError(message: string)          // src/errors.ts:1-6
    | PackageNotFoundError(message: string)  // src/errors.ts:8-13
    | PlainError(message: string)            // `new Error(message)`
    | TypeError                              // a property read on `undefined`
    | DepthExhausted                         // the model's recursion bound ran out (not in the source)

  /** Thrown by `retry` once the last permitted attempt has failed. */
  const MaxRetriesMessage: string := "Max retries reached!"

  /** Thrown by `getDependency` when no version is selected. */
  const CannotResolveMessage: string := "Cannot resolve the package !"

  /** Thrown by `getDependency` when the ancestor check finds a frame. */
  const ConflictMessage: string := "Dependency conflict detected !"

  /** The message of the error raised for a registry answer with an `error` field. */
  function NotFoundMessage(pkgName: string): string
  {
    "Package " + pkgName + " not found!"
  }
}
