/** Option and Result values shared by the modules of this model. */
module Wrappers {

  datatype Option<+T> = None | Some(value: T)

  /** The one failure of the splitter node: Python's `str.split` refuses an empty separator. */
  datatype SplitError = EmptySeparator

  datatype Result<+T> = Ok(value: T) | Err(error: SplitError)
}
