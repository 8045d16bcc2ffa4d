/** The usual optional value, used for oracle faults and errno results. */
module Optional {
  datatype Option<+T> = None | Some(value: T)
}
