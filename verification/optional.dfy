/** An optional value: the router's `location.state?.topic` is either absent or a string. */
module Optional {

  datatype Option<+T> = None | Some(value: T)
}
