/** Optional values: the model's stand-in for Java's null returns and for
    library calls that either produce a value or throw. */
module Options {

  datatype Option<+T> = None | Some(value: T)
}
