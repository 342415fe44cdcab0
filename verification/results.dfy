/** Optional values and the Python exceptions the modelled code can raise. */
module Results {

  datatype Option<+T> = None | Some(value: T)

  /** The exception kinds that escape from the modelled services. */
  datatype PyError =
    | AttributeError(what: string)   // `.get` on a value that is not a dict
    | TypeError(what: string)        // iterating a value that is not iterable
    | ValueError(what: string)       // explicit `raise ValueError(...)`
    | ImportError(what: string)      // `from m import name` where `m` does not define `name`
    | ExternalError                  // a collaborator (database, file system) raised

  datatype Result<+T> = Ok(value: T) | Err(error: PyError)
}
