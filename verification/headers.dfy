/** Header decoding (`decode_email_header`): a header is split into segments,
    each segment is turned into text, and the texts are joined in order. A
    missing or empty header reads as the literal "None"; when anything raises
    the raw header text is returned instead. */
module Headers {
  import opened Common
  import opened Mime

  /** What a missing or empty header decodes to. */
  const Placeholder: string := "None"

  /** Python truthiness of the header argument: a missing header and an empty
      one are both false. */
  predicate Present(h: Option<Header>)
  {
    h.Some? && h.value.raw != ""
  }

  /** The text of one segment, or `None` when its codec raises: bytes tagged
      with a (non-empty) charset decode strictly under it, untagged bytes
      decode as UTF-8 with replacement, and text is kept as it is. */
  function DecodeSegment(cx: Codecs, seg: Segment): Option<string>
  {
    match seg
    case Text(t) => Some(t)
    case Encoded(data, cs) =>
      if Truthy(cs) then cx.strict(cs.value, data) else cx.replace("utf-8", data)
  }

  predicate Decodes(cx: Codecs, seg: Segment)
  {
    DecodeSegment(cx, seg).Some?
  }

  /** The text accumulated after the segments in `segs` have been appended
      one by one, or `None` once one of them raised. */
  function DecodeSegments(cx: Codecs, segs: seq<Segment>): (r: Option<string>)
    ensures r.Some? <==> forall i :: 0 <= i < |segs| ==> Decodes(cx, segs[i])
    decreases |segs|
  {
    if segs == [] then Some("")
    else
      var init := DecodeSegments(cx, segs[..|segs| - 1]);
      var last := DecodeSegment(cx, segs[|segs| - 1]);
      if init.Some? && last.Some? then Some(init.value + last.value) else None
  }

  /** Reference reading: the texts of the segments, concatenated front to back. */
  function Joined(cx: Codecs, segs: seq<Segment>): string
    decreases |segs|
  {
    if segs == [] then ""
    else DecodeSegment(cx, segs[0]).GetOr("") + Joined(cx, segs[1..])
  }

  /** `decode_email_header`. */
  function DecodeHeader(cx: Codecs, h: Option<Header>): (r: string)
    ensures !Present(h) ==> r == Placeholder
    ensures Present(h) && h.value.segments.None? ==> r == h.value.raw
  {
    if !Present(h) then Placeholder
    else
      match h.value.segments
      case None => h.value.raw
      case Some(segs) => DecodeSegments(cx, segs).GetOr(h.value.raw)
  }

  lemma {:induction false} JoinedSnoc(cx: Codecs, segs: seq<Segment>, s: Segment)
    ensures Joined(cx, segs + [s]) == Joined(cx, segs) + DecodeSegment(cx, s).GetOr("")
    decreases |segs|
  {
    if segs == [] {
      assert [s][1..] == [];
    } else {
      assert (segs + [s])[1..] == segs[1..] + [s];
      JoinedSnoc(cx, segs[1..], s);
    }
  }

  /** When every segment decodes, the accumulated text is the in-order
      concatenation of the segments' texts. */
  lemma {:induction false} DecodeSegmentsJoin(cx: Codecs, segs: seq<Segment>)
    requires forall i :: 0 <= i < |segs| ==> Decodes(cx, segs[i])
    ensures DecodeSegments(cx, segs) == Some(Joined(cx, segs))
    decreases |segs|
  {
    if segs != [] {
      var init := segs[..|segs| - 1];
      var last := segs[|segs| - 1];
      DecodeSegmentsJoin(cx, init);
      assert init + [last] == segs;
      JoinedSnoc(cx, init, last);
    }
  }

  /** The whole behaviour of header decoding: "None" for a missing or empty
      header; the joined segment texts when the header splits and every
      segment decodes; the raw header text when the split or any segment's
      codec raises. */
  lemma {:induction false} DecodeHeaderSpec(cx: Codecs, h: Option<Header>)
    ensures !Present(h) ==> DecodeHeader(cx, h) == Placeholder
    ensures Present(h) && h.value.segments.Some?
            && (forall i :: 0 <= i < |h.value.segments.value| ==> Decodes(cx, h.value.segments.value[i]))
            ==> DecodeHeader(cx, h) == Joined(cx, h.value.segments.value)
    ensures Present(h) && h.value.segments.Some?
            && (exists i :: 0 <= i < |h.value.segments.value| && !Decodes(cx, h.value.segments.value[i]))
            ==> DecodeHeader(cx, h) == h.value.raw
  {
    if Present(h) && h.value.segments.Some? {
      var segs := h.value.segments.value;
      if forall i :: 0 <= i < |segs| ==> Decodes(cx, segs[i]) {
        DecodeSegmentsJoin(cx, segs);
      }
    }
  }

  /** With a UTF-8 codec that never raises under replacement, a header whose
      bytes carry no charset (or that is plain text) never falls back to its
      raw text: it always decodes to the joined segment texts. */
  lemma {:induction false} Utf8NeverFallsBack(cx: Codecs, h: Option<Header>)
    requires cx.LenientUtf8()
    requires Present(h) && h.value.segments.Some?
    requires forall i :: 0 <= i < |h.value.segments.value| ==>
               h.value.segments.value[i].Text? || !Truthy(h.value.segments.value[i].charset)
    ensures DecodeHeader(cx, h) == Joined(cx, h.value.segments.value)
  {
    var segs := h.value.segments.value;
    forall i | 0 <= i < |segs|
      ensures Decodes(cx, segs[i])
    {
      if segs[i].Encoded? {
        assert cx.replace("utf-8", segs[i].data).Some?;
      }
    }
    DecodeSegmentsJoin(cx, segs);
  }

  /** A header holding an encoded word reassembles into one string. The
      splitter returns the unencoded rest as charset-less bytes, which decode
      as UTF-8 with replacement. */
  lemma {:induction false} MixedSegmentsExample(cx: Codecs, word: Bytes, menu: Bytes)
    requires cx.strict("utf-8", word) == Some("Café")
    requires cx.replace("utf-8", menu) == Some(" menu")
    ensures DecodeHeader(cx, Some(Header("=?utf-8?q?Caf=C3=A9?= menu",
              Some([Encoded(word, Some("utf-8")), Encoded(menu, None)]))))
            == "Café menu"
  {
    var segs := [Encoded(word, Some("utf-8")), Encoded(menu, None)];
    var first := segs[..1];
    assert first[..0] == [] && first[0] == Encoded(word, Some("utf-8"));
    assert DecodeSegment(cx, first[0]) == Some("Café");
    assert "" + "Café" == "Café";
    assert DecodeSegments(cx, first) == Some("Café");
    assert DecodeSegment(cx, segs[1]) == Some(" menu");
    assert DecodeSegments(cx, segs) == Some("Café" + " menu");
  }

  /** The loop of `decode_email_header`: append each segment's text to the
      result, returning the raw header as soon as a codec raises. */
  method DecodeHeaderScan(cx: Codecs, h: Option<Header>) returns (r: string)
    ensures r == DecodeHeader(cx, h)
  {
    if !Present(h) {
      return Placeholder;
    }
    var header := h.value;
    if header.segments.None? {
      return header.raw;
    }
    var segs := header.segments.value;
    var result := "";
    var i := 0;
    while i < |segs|
      invariant 0 <= i <= |segs|
      invariant DecodeSegments(cx, segs[..i]) == Some(result)
    {
      var piece := DecodeSegment(cx, segs[i]);
      if piece.None? {
        // the codec raised: the handler returns str(header)
        assert !Decodes(cx, segs[i]);
        return header.raw;
      }
      assert segs[..i + 1][..i] == segs[..i];
      result := result + piece.value;
      i := i + 1;
    }
    assert segs[..i] == segs;
    return result;
  }
}
