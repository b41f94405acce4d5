/** Option and Result, and the errors the program raises. */
module Wrappers {

  datatype Option<+T> = None | Some(value: T)

  /** The exceptions the modelled code raises, by Python class. */
  datatype Error =
    | RuntimeError(message: string)
    | KeyError(key: string)
    | ValueError(message: string)
    | IndexError
    | AttributeError(name: string)
    | NameError(name: string)
    | EOFError
    | SyntaxError(text: string)
    | NoSectionError(section: string)
    | NoOptionError(option: string)
    | DuplicateSectionError(section: string)
    | ServerError(code: string)

  datatype Result<+T> = Ok(value: T) | Err(error: Error)

  /** A keyword argument: not passed, passed as None, or passed with a value. */
  datatype Arg<+T> = Absent | Null | Given(value: T)
}
