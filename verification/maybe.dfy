/** The optional value returned by the lookups of the model (`Array.prototype.find`
    answers `undefined` when nothing matches). */
module Maybe {

  datatype Option<+T> = None | Some(value: T)
}
