/** Values shared by the admin page, the route gate and the login route. */
module Common {

  /** A value that JavaScript code may find missing (`undefined`, a null ref, an unset variable). */
  datatype Option<T> = None | Some(value: T)
}
