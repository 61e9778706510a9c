/** The Option type used where the program keeps an `Option`. */
module Options {
  datatype Option<+T> = None | Some(value: T)
}
