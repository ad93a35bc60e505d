/** The optional value used wherever the script works with something that may be absent
    (`null`, `undefined`, a missing property). */
module Options {

  datatype Option<+T> = None | Some(value: T)
}
