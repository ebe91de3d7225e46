/** C#'s nullable references (`string?`, `int?`) as an explicit option type. */
module Nullable {

  datatype Option<+T> = None | Some(value: T)
}
