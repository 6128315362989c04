/** Shared vocabulary of the mail client model: bytes, optional values, the
    character-set codecs the client calls into, and the configuration. */
module Common {

  /** An octet, as found in raw message ids and payloads. */
  newtype byte = x: int | 0 <= x < 256

  type Bytes = seq<byte>

  /** A value that may be absent (Python's `None`). */
  datatype Option<+T> = None | Some(value: T) {

    /** The wrapped value, or `default` when absent. */
    function GetOr(default: T): T
    {
      match this
      case Some(v) => v
      case None => default
    }
  }

  /** Python truthiness of an optional string: `None` and `""` are both false. */
  predicate Truthy(s: Option<string>)
  {
    s.Some? && s.value != ""
  }

  /** Python truthiness of an optional byte string: `None` and `b""` are both false. */
  predicate HasBytes(b: Option<Bytes>)
  {
    b.Some? && b.value != []
  }

  /** The character-set codecs, which the model does not look inside.
      `strict(cs, b)` is `b.decode(cs)`; `replace(cs, b)` is
      `b.decode(cs, errors='replace')`. `None` means the call raises
      (an unknown charset, or undecodable bytes under `strict`). */
  datatype Codecs = Codecs(
    strict: (string, Bytes) -> Option<string>,
    replace: (string, Bytes) -> Option<string>)
  {
    /** UTF-8 with replacement never raises. */
    ghost predicate LenientUtf8()
    {
      forall b: Bytes :: replace("utf-8", b).Some?
    }
  }

  /** The settings the fetch pipeline reads: the cache expiry window in
      seconds, how many of the most recent ids to fetch, and the batch size.
      Credentials and the cache path are not part of this model. */
  datatype Config = Config(cacheExpiry: int, maxEmails: int, batchSize: int)

  /** The values the application ships with. */
  const Shipped: Config := Config(300, 20, 5)

  function Min(a: int, b: int): int
  {
    if a <= b then a else b
  }
}
