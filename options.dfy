/** The optional value the component uses where the source writes `T | null`
    (or receives `undefined` from `Array.prototype.find`). */
module Options {

  datatype Option<+T> = None | Some(value: T)
}
