/** Optional values: a JavaScript property that may be `undefined` or `null`. */
module Options {

  datatype Option<+T> = None | Some(value: T)

}
