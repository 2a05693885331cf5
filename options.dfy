/** An optional value: `None` stands for the `null` the source returns, or for an
    exception that ends the operation. */
module Options {

  datatype Option<+T> = None | Some(value: T)

}
