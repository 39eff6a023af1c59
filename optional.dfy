/** The Some/None datatype used for chunk contents and search results. */
module Optional {

  datatype Option<+T> = None | Some(value: T)
}
