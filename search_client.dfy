/**
 * `search_anime` in utils/anime_search.py: re-encode the image, compress it
 * when it is large, submit it as a multipart upload and, unless that gives
 * a usable answer, as an inline base64 JSON body.
 *
 * HTTP is not modelled: `post(transfer, payload)` is the outcome of one
 * request (raised, or a status with a body that parsed or not), and the
 * search is a pure function of the raw bytes, the imaging library and `post`.
 */
module SearchClient {
  import opened Wrappers
  import opened Imaging
  import opened Selection

  /** Above this many bytes the re-encoded image is compressed. */
  const COMPRESS_TRIGGER := 5 * MIB
  /** JPEG quality of the baseline re-encoding. */
  const BASELINE_QUALITY := 90
  /** Modes that `search_anime` flattens to RGB before re-encoding. */
  const SEARCH_FLATTENED: set<Mode> := {RGBA, LA, P, CMYK}

  const PAYLOAD_TOO_LARGE := 413
  const TOO_MANY_REQUESTS := 429
  const OK := 200

  /** The two submission strategies, in the order they are tried. */
  datatype Transfer = Multipart | InlineJson

  /** A parsed response body: the `error` marker and the `result` list, each possibly missing. */
  datatype Body = Body(error: Option<string>, result: Option<seq<Candidate>>)

  /** One request: it raised, or it answered with a status and a body (None: not valid JSON). */
  datatype Outcome = Raised | Replied(status: int, body: Option<Body>)

  /** The body reports an error: its `error` field is present and non-empty (Python truthiness of a string). */
  predicate ErrorMarked(b: Body): (marked: bool)
    ensures b.error.None? ==> !marked
    ensures b.error == Some("") ==> !marked
  {
    b.error.Some? && b.error.value != ""
  }

  /** The candidate list of a body, empty when the `result` field is missing. */
  function Results(b: Body): seq<Candidate>
  {
    b.result.GetOr([])
  }

  /** A response worth reading: HTTP 200, a body that parsed, and no error marker. */
  predicate Usable(o: Outcome): (usable: bool)
    ensures usable ==> o.Replied? && o.status == OK && o.body.Some?
    ensures o.Replied? && (o.status == PAYLOAD_TOO_LARGE || o.status == TOO_MANY_REQUESTS) ==> !usable
  {
    o.Replied? && o.status == OK && o.body.Some? && !ErrorMarked(o.body.value)
  }

  /**
   * The baseline encoding: decode, flatten RGBA, LA, P and CMYK to RGB and
   * save as JPEG at quality 90; if any of that raises, the raw bytes.
   */
  function Reencoded(raw: Bytes, lib: Library): (jpeg: Bytes)
    ensures Decode(raw, SEARCH_FLATTENED, lib).None? ==> jpeg == raw
    ensures Decode(raw, SEARCH_FLATTENED, lib).Some? ==>
      jpeg == lib.saveJpeg(Decode(raw, SEARCH_FLATTENED, lib).value, BASELINE_QUALITY).GetOr(raw)
  {
    match Decode(raw, SEARCH_FLATTENED, lib)
    case None => raw
    case Some(image) =>
      match lib.saveJpeg(image, BASELINE_QUALITY)
      case None => raw
      case Some(jpeg) => jpeg
  }

  /**
   * The bytes submitted: the baseline encoding, compressed to 10 MiB when it
   * exceeds 5 MiB. Since the compression leaves anything within 10 MiB alone,
   * only an encoding above 10 MiB can change.
   */
  function Payload(raw: Bytes, lib: Library): (payload: Bytes)
    ensures payload == Compressed(Reencoded(raw, lib), MAX_IMAGE_SIZE, lib)
    ensures |Reencoded(raw, lib)| <= MAX_IMAGE_SIZE ==> payload == Reencoded(raw, lib)
    ensures payload == Reencoded(raw, lib) || |payload| <= MAX_IMAGE_SIZE
    ensures lib.open(raw).None? ==> payload == raw
  {
    var jpeg := Reencoded(raw, lib);
    if |jpeg| > COMPRESS_TRIGGER then Compressed(jpeg, MAX_IMAGE_SIZE, lib) else jpeg
  }

  /** What one response yields: the selected candidates when it is usable, otherwise nothing. */
  function Answer(o: Outcome): (r: Option<seq<Candidate>>)
    ensures r.Some? <==> Usable(o)
    ensures r.Some? ==> r.value == Select(Results(o.body.value))
    ensures r.Some? ==> IsSubsequence(r.value, Results(o.body.value))
    ensures o.Replied? && (o.status == PAYLOAD_TOO_LARGE || o.status == TOO_MANY_REQUESTS) ==> r.None?
  {
    match o
    case Raised => None
    case Replied(status, body) =>
      if status == PAYLOAD_TOO_LARGE then None
      else if status == TOO_MANY_REQUESTS then None
      else if status != OK then None
      else
        match body
        case None => None
        case Some(b) => if ErrorMarked(b) then None else Some(Select(Results(b)))
  }

  /**
   * The whole search: the multipart answer when it is usable, otherwise
   * the inline JSON answer; `None` means no result.
   */
  function SearchAnime(raw: Bytes, lib: Library, post: (Transfer, Bytes) -> Outcome): (r: Option<seq<Candidate>>)
    ensures var payload := Payload(raw, lib);
      var first := post(Multipart, payload);
      var second := post(InlineJson, payload);
      && (Usable(first) ==> r == Some(Select(Results(first.body.value))))
      && (!Usable(first) ==> (r.Some? <==> Usable(second)))
      && (!Usable(first) && Usable(second) ==> r == Some(Select(Results(second.body.value))))
  {
    var payload := Payload(raw, lib);
    match Answer(post(Multipart, payload))
    case Some(selected) => Some(selected)
    case None => Answer(post(InlineJson, payload))
  }

  /**
   * A usable multipart answer ends the search: a transport that answers the
   * multipart request the same way gives the same result whatever it would
   * have answered to the JSON request, so that request is never made.
   */
  lemma FallbackNotConsulted(raw: Bytes, lib: Library, post: (Transfer, Bytes) -> Outcome, other: (Transfer, Bytes) -> Outcome)
    requires Usable(post(Multipart, Payload(raw, lib)))
    requires other(Multipart, Payload(raw, lib)) == post(Multipart, Payload(raw, lib))
    ensures SearchAnime(raw, lib, other) == SearchAnime(raw, lib, post)
  {
  }

  /** After an unusable multipart answer, 413, 429, any other non-200 status, an error marker or an exception on the JSON request means no result. */
  lemma FallbackTerminal(raw: Bytes, lib: Library, post: (Transfer, Bytes) -> Outcome)
    requires !Usable(post(Multipart, Payload(raw, lib)))
    requires var second := post(InlineJson, Payload(raw, lib));
      || second.Raised?
      || second.status != OK
      || second.body.None?
      || ErrorMarked(second.body.value)
    ensures SearchAnime(raw, lib, post).None?
  {
  }
}
