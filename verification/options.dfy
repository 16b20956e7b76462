/** An optional value: used both for falsy `cn` arguments and for searches
    that can come up empty. */
module Options {

  datatype Option<+T> = None | Some(value: T)
}
