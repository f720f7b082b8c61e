/** The Some/None datatype used wherever the bot's Rust code returns an `Option`. */
module Optional {
  datatype Option<+T> = None | Some(value: T)
}
