/** The JavaScript `null` / absent value, as an explicit Option. */
module Options {

  datatype Option<+T> = None | Some(value: T)

}
