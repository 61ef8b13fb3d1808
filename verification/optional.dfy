/** A possibly missing value: the message-board slot before the board is
    first created, and a JavaScript argument the caller left out. */
module Optional {

  datatype Option<+T> = None | Some(value: T)
}
