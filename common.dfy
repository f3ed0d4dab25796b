/** Shared value wrappers: Java's nullable references become Option. */
module Common {

  datatype Option<+T> = None | Some(value: T)
}
