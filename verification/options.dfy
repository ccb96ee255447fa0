/** Optional values, used where the detector's search may find nothing. */
module Options {
  datatype Option<+T> = None | Some(value: T)
}
