/** The optional value used where the modelled program either produces a
    value or lets an exception end the run. */
module Results {

  datatype Option<+T> = None | Some(value: T)
}
