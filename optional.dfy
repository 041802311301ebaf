/** The optional value used for JavaScript's `undefined`: a property that is
    not there, an array slot that holds nothing. */
module Optional {

  datatype Option<+T> = None | Some(value: T)
}
