/** The network as the application sees it: byte strings and the outcome of
    one `requests.get` call. */
module Http {

  newtype Byte = x: int | 0 <= x < 256

  type Bytes = seq<Byte>

  /** The outcome of `requests.get(url)`: the call raised an exception, or it
      returned a status code and the body (`response.content`). */
  datatype Response = Raised | Reply(status: int, content: Bytes) {

    /** `response.status_code == 200` */
    predicate Ok() {
      Reply? && status == 200
    }
  }
}
