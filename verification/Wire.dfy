/** The frames between client library and daemon. */
module Wire {

  /** The longest payload of a request or a reply. */
  const MAXPAY := 16384
}
