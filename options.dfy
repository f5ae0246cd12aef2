/** The absent-or-present value used for the scanner's nullable state cells and parse results. */
module Options {

  datatype Option<+T> = None | Some(value: T)

}
