/** The usual Some/None wrapper, used where the site's code looks something up
    and may find nothing (a catalog key, a digit run in a text). */
module Optional {

  datatype Option<+T> = None | Some(value: T)

}
