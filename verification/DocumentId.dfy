/** Document identifiers: the validation of `DocumentId::new` in crates/nova-core/src/document.rs. */
module DocumentIds {
  import opened Core
  import Utf8

  const MAX_ID_BYTES := 256

  /** What every identifier built by `DocumentId::new` satisfies. */
  predicate IsDocumentId(s: string) {
    s != "" && Utf8.IsTrimmed(s) && Utf8.ByteLength(s) <= MAX_ID_BYTES
  }

  type DocumentId = s: string | IsDocumentId(s) witness "a"

  lemma {:induction false} TrimTwice(s: string)
    ensures Utf8.Trim(Utf8.Trim(s)) == Utf8.Trim(s)
  {
    var t := Utf8.Trim(s);
    if t != "" {
      assert !Utf8.IsWhitespace(t[0]) && !Utf8.IsWhitespace(t[|t| - 1]);
    }
  }

  lemma IdBytes(id: DocumentId)
    ensures |Utf8.Encode(id)| <= MAX_ID_BYTES
  {
    Utf8.EncodeLength(id);
  }

  /** `DocumentId::new`: trims, then refuses the empty and the overlong identifier. */
  function NewDocumentId(text: string): (r: Result<DocumentId>)
    ensures r.Ok? ==> r.value == Utf8.Trim(text)
    ensures r.Ok? <==> Utf8.Trim(text) != "" && |Utf8.Encode(Utf8.Trim(text))| <= MAX_ID_BYTES
    ensures IsDocumentId(text) <==> r == Ok(text)
  {
    TrimTwice(text);
    Utf8.TrimmedIsTrimmed(text);
    Utf8.EncodeLength(Utf8.Trim(text));
    Utf8.EncodeLength(text);
    var trimmed := Utf8.Trim(text);
    if trimmed == "" then Err(InvalidQuery)
    else if |Utf8.Encode(trimmed)| > MAX_ID_BYTES then Err(InvalidQuery)
    else Ok(trimmed)
  }
}
