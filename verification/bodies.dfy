/** Body extraction (`extract_email_body`). A multipart message yields the
    decoded payload of the first part, in walk order, that is plain text, is
    not marked as an attachment, has a non-empty payload and whose charset
    decodes; otherwise the body is empty. A single-part message yields its own
    decoded payload, "" when it has none, and a fixed placeholder when
    decoding raises. */
module Bodies {
  import opened Common
  import opened Mime

  /** The body of a single-part message whose payload cannot be decoded. */
  const DecodeFailure: string := "Could not decode message body"

  /** The word whose presence in the disposition marks a part as an attachment. */
  const AttachmentWord: string := "attachment"

  /** `needle` occurs in `hay` starting at index `i`. */
  predicate OccursAt(hay: string, needle: string, i: int)
  {
    0 <= i && i + |needle| <= |hay| && hay[i..i + |needle|] == needle
  }

  /** Python's `needle in hay` on strings: a case-sensitive substring test. */
  predicate Contains(hay: string, needle: string)
    decreases |hay|
  {
    if |needle| > |hay| then false
    else hay[..|needle|] == needle || (|hay| > 0 && Contains(hay[1..], needle))
  }

  /** `str(part.get("Content-Disposition"))`: the header value, or the text
      "None" when the part has no such header. */
  function DispositionText(p: Part): string
  {
    match p.disposition
    case Some(d) => d
    case None => "None"
  }

  /** `part.get_content_charset() or 'utf-8'`. */
  function CharsetOf(p: Part): string
  {
    if Truthy(p.charset) then p.charset.value else "utf-8"
  }

  /** A part the multipart scan stops at: not an attachment, plain text, a
      non-empty payload, and a charset decode that does not raise. */
  predicate Eligible(cx: Codecs, p: Part)
  {
    && !Contains(DispositionText(p), AttachmentWord)
    && p.contentType == "text/plain"
    && HasBytes(p.payload)
    && cx.replace(CharsetOf(p), p.payload.value).Some?
  }

  /** The text an eligible part contributes. */
  function PartText(cx: Codecs, p: Part): string
    requires Eligible(cx, p)
  {
    cx.replace(CharsetOf(p), p.payload.value).value
  }

  /** The multipart scan over the walked parts: the text of the first
      eligible part, or `None` when no part qualifies. */
  function FirstPlainText(cx: Codecs, parts: seq<Part>): Option<string>
    decreases |parts|
  {
    if parts == [] then None
    else if Eligible(cx, parts[0]) then Some(PartText(cx, parts[0]))
    else FirstPlainText(cx, parts[1..])
  }

  /** `extract_email_body`. */
  function ExtractBody(cx: Codecs, m: Message): (body: string)
    ensures !m.multipart && !HasBytes(m.root.payload) ==> body == ""
  {
    if m.multipart then
      FirstPlainText(cx, m.Walk()).GetOr("")
    else if !HasBytes(m.root.payload) then
      ""
    else
      cx.replace(CharsetOf(m.root), m.root.payload.value).GetOr(DecodeFailure)
  }

  lemma {:induction false} ContainsIff(hay: string, needle: string)
    ensures Contains(hay, needle) <==> exists i :: OccursAt(hay, needle, i)
    decreases |hay|
  {
    if |needle| > |hay| {
      assert forall i :: !OccursAt(hay, needle, i);
    } else if hay[..|needle|] == needle {
      assert OccursAt(hay, needle, 0);
    } else {
      ContainsIff(hay[1..], needle);
      forall i
        ensures OccursAt(hay, needle, i + 1) <==> OccursAt(hay[1..], needle, i)
      {
        if 0 <= i && i + 1 + |needle| <= |hay| {
          assert hay[1..][i..i + |needle|] == hay[i + 1..i + 1 + |needle|];
        }
      }
      if exists i :: OccursAt(hay, needle, i) {
        var i :| OccursAt(hay, needle, i);
        assert i != 0;
        assert OccursAt(hay[1..], needle, i - 1);
      }
    }
  }

  /** The scan picks exactly the first eligible part: it finds nothing iff no
      part is eligible, and otherwise yields the text of the eligible part
      that has no eligible part before it. */
  lemma {:induction false} FirstPlainTextSpec(cx: Codecs, parts: seq<Part>)
    ensures FirstPlainText(cx, parts).None? <==> forall j :: 0 <= j < |parts| ==> !Eligible(cx, parts[j])
    ensures forall k :: 0 <= k < |parts| && Eligible(cx, parts[k])
                        && (forall j :: 0 <= j < k ==> !Eligible(cx, parts[j]))
                        ==> FirstPlainText(cx, parts) == Some(PartText(cx, parts[k]))
    decreases |parts|
  {
    if parts != [] && !Eligible(cx, parts[0]) {
      FirstPlainTextSpec(cx, parts[1..]);
      forall k | 0 < k < |parts| && Eligible(cx, parts[k])
                 && (forall j :: 0 <= j < k ==> !Eligible(cx, parts[j]))
        ensures FirstPlainText(cx, parts) == Some(PartText(cx, parts[k]))
      {
        assert parts[1..][k - 1] == parts[k];
        assert forall j :: 0 <= j < k - 1 ==> parts[1..][j] == parts[j + 1];
      }
      if forall j :: 0 <= j < |parts| - 1 ==> !Eligible(cx, parts[1..][j]) {
        assert forall j :: 0 < j < |parts| ==> parts[j] == parts[1..][j - 1];
      }
    }
  }

  /** Parts after the first eligible one are never looked at. */
  lemma {:induction false} LaterPartsIgnored(cx: Codecs, parts: seq<Part>, later: seq<Part>)
    requires FirstPlainText(cx, parts).Some?
    ensures FirstPlainText(cx, parts + later) == FirstPlainText(cx, parts)
    decreases |parts|
  {
    assert (parts + later)[0] == parts[0];
    if !Eligible(cx, parts[0]) {
      assert (parts + later)[1..] == parts[1..] + later;
      LaterPartsIgnored(cx, parts[1..], later);
    }
  }

  /** The whole behaviour of body extraction, case by case. */
  lemma {:induction false} ExtractBodySpec(cx: Codecs, m: Message)
    ensures m.multipart && (forall j :: 0 <= j < |m.Walk()| ==> !Eligible(cx, m.Walk()[j]))
            ==> ExtractBody(cx, m) == ""
    ensures m.multipart ==>
            forall k :: 0 <= k < |m.Walk()| && Eligible(cx, m.Walk()[k])
                        && (forall j :: 0 <= j < k ==> !Eligible(cx, m.Walk()[j]))
                        ==> ExtractBody(cx, m) == PartText(cx, m.Walk()[k])
    ensures !m.multipart && HasBytes(m.root.payload)
            && cx.replace(CharsetOf(m.root), m.root.payload.value).None?
            ==> ExtractBody(cx, m) == DecodeFailure
    ensures !m.multipart && HasBytes(m.root.payload)
            && cx.replace(CharsetOf(m.root), m.root.payload.value).Some?
            ==> ExtractBody(cx, m) == cx.replace(CharsetOf(m.root), m.root.payload.value).value
  {
    FirstPlainTextSpec(cx, m.Walk());
  }

  /** A plain-text attachment ahead of the real plain-text body is skipped
      and the later part is chosen. */
  lemma {:induction false} AttachmentSkippedExample(cx: Codecs, container: Part, attached: Bytes, text: Bytes)
    requires container.contentType == "multipart/mixed"
    requires attached != [] && text != []
    requires cx.replace("utf-8", attached) == Some("attached notes")
    requires cx.replace("utf-8", text) == Some("Hello")
    ensures ExtractBody(cx, Message(None, None, None, true, container, [
              Part("text/plain", Some("attachment; filename=\"notes.txt\""), Some(attached), None),
              Part("text/plain", None, Some(text), Some("utf-8"))]))
            == "Hello"
  {
    var att := Part("text/plain", Some("attachment; filename=\"notes.txt\""), Some(attached), None);
    var main := Part("text/plain", None, Some(text), Some("utf-8"));
    var walk := [container, att, main];
    assert DispositionText(att)[..|AttachmentWord|] == AttachmentWord;
    assert !Eligible(cx, att);
    assert !Contains("None", AttachmentWord);
    assert Eligible(cx, main);
    assert walk[1..][1..] == [main];
    assert FirstPlainText(cx, walk[1..]) == FirstPlainText(cx, [main]);
  }

  /** A multipart message with no plain-text part has an empty body. */
  lemma {:induction false} HtmlOnlyExample(cx: Codecs, container: Part, html: Part)
    requires container.contentType == "multipart/alternative"
    requires html.contentType == "text/html"
    ensures ExtractBody(cx, Message(None, None, None, true, container, [html])) == ""
  {
    var walk := [container, html];
    assert walk[1..] == [html] && [html][1..] == [];
    assert FirstPlainText(cx, [html]) == None;
    assert FirstPlainText(cx, walk) == None;
  }

  /** The loop of `extract_email_body`, with its `continue`, its swallowed
      exception and its `break`. */
  method ExtractBodyScan(cx: Codecs, m: Message) returns (body: string)
    ensures body == ExtractBody(cx, m)
  {
    body := "";
    if m.multipart {
      var parts := m.Walk();
      var i := 0;
      while i < |parts|
        invariant 0 <= i <= |parts|
        invariant body == ""
        invariant FirstPlainText(cx, parts[i..]) == FirstPlainText(cx, parts)
      {
        var part := parts[i];
        assert parts[i..][1..] == parts[i + 1..];
        if Contains(DispositionText(part), AttachmentWord) {
          i := i + 1;
          continue;
        }
        if part.contentType == "text/plain" && HasBytes(part.payload) {
          var decoded := cx.replace(CharsetOf(part), part.payload.value);
          if decoded.Some? {
            body := decoded.value;
            break;
          }
          // the codec raised: the handler swallows it and the scan goes on
        }
        i := i + 1;
      }
    } else if HasBytes(m.root.payload) {
      var decoded := cx.replace(CharsetOf(m.root), m.root.payload.value);
      body := if decoded.Some? then decoded.value else DecodeFailure;
    }
  }
}
