/** An optional value: `None` stands for JavaScript's `NaN`/`null` and for a missing map entry. */
module Options {

  datatype Option<+T> = None | Some(value: T)
}
