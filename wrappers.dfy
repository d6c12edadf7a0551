/** Nullable references and exception-or-value results, shared by every module. */
module Wrappers {

  /** A Java reference that may be null: `None` stands for null. */
  datatype Option<+T> = None | Some(value: T)

  /** The Java exceptions the modelled code can raise. */
  datatype JavaException =
    | NullPointer           // NullPointerException
    | ClassCast             // ClassCastException
    | IndexOutOfBounds      // ArrayIndexOutOfBoundsException
    | IllegalArgument       // IllegalArgumentException
    | NoSuchElement         // NoSuchElementException

  /** The outcome of a Java call: a value, or the exception it throws. */
  datatype Result<+T> = Ok(value: T) | Err(error: JavaException)
}
