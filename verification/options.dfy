/** The optional value used wherever the bot has "nothing here": a missing
    map entry, a `null` timer handle, a failed parse. */
module Options {
  datatype Option<+T> = None | Some(value: T)
}
