/** What can become of one call to a repository or to another service, and the
    two result types the other modules share. */
module Calls {

  datatype Option<+T> = None | Some(value: T)

  /** A write either takes effect and says so, has no effect and fails, or takes
      effect although its caller is told that it failed (a lost acknowledgement). */
  datatype Fate = Works | Fails | WorksUnreported {
    predicate Lands() { !Fails? }
  }
}
