/** The two directions of a transport. */
module Directions {

  datatype Dir = Read | Write

  /** A value for each direction. */
  datatype Both<T> = Both(read: T, write: T) {
    function At(dir: Dir): T {
      match dir case Read => read case Write => write
    }

    function With(dir: Dir, v: T): Both<T> {
      match dir case Read => Both(v, write) case Write => Both(read, v)
    }
  }
}
