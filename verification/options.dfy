/** The optional value used wherever the handler either has an answer or does not
    (a dictionary lookup, a parse, a Python operation that may raise). */
module Options {

  datatype Option<+T> = None | Some(value: T)

}
