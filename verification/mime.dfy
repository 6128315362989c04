/** The parsed shape of a fetched message, as far as the client looks at it,
    and the record the client builds from it. The MIME parser itself is not
    modelled: a `Message` is what it would hand back. */
module Mime {
  import opened Common

  /** One piece of a header after it is split into encoded words: plain text,
      or bytes with the charset the encoded word named (if any). */
  datatype Segment = Text(text: string) | Encoded(data: Bytes, charset: Option<string>)

  /** A header as it appears on the message: its raw text (what `str(header)`
      gives) and the segments the header splitter produces from it, or `None`
      when the splitter raises. */
  datatype Header = Header(raw: string, segments: Option<seq<Segment>>)

  /** One MIME part: its content type, its Content-Disposition value if the
      header is present, its transfer-decoded payload (`None` for a container
      part), and its declared charset if any. */
  datatype Part = Part(
    contentType: string,
    disposition: Option<string>,
    payload: Option<Bytes>,
    charset: Option<string>)

  /** A parsed message: the three headers the client reads (`None` when the
      header is missing), whether it is multipart, the top-level part and,
      for a multipart message, the parts below it in depth-first order. */
  datatype Message = Message(
    subject: Option<Header>,
    from: Option<Header>,
    date: Option<Header>,
    multipart: bool,
    root: Part,
    subparts: seq<Part>)
  {
    /** The parts `walk()` visits: the message itself first, then the parts below it. */
    function Walk(): seq<Part>
    {
      [root] + subparts
    }
  }

  /** The record the client returns for each message; every field is text. */
  datatype EmailRecord = EmailRecord(
    id: string,
    subject: string,
    sender: string,
    date: string,
    body: string)
}
