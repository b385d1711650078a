/** The request-body schema of apps/render-service/src/schema.ts: a zod object
    whose properties are all strings, every one required and non-empty except
    `captionsKey`, which may be absent or any string (the empty one included).
    Properties the schema does not name are dropped by the parse, so the body is
    modelled by the seven properties the schema looks at. */
module Schema {
  import opened Results
  import opened Text

  /** One property of the incoming JSON body, as the schema sees it: absent,
      a string, or some other JSON value (number, null, object, ...). */
  datatype Field = Missing | Str(s: String) | NonString

  datatype RawBody = RawBody(
    runId: Field,
    composition: Field,
    audioKey: Field,
    propsKey: Field,
    captionsKey: Field,
    outputKey: Field,
    logKey: Field)

  /** The parsed request, `z.infer<typeof RenderRequestSchema>`. */
  datatype RenderRequest = RenderRequest(
    runId: String,
    composition: String,
    audioKey: String,
    propsKey: String,
    captionsKey: Option<String>,
    outputKey: String,
    logKey: String)

  /** `z.string().min(1)`. */
  predicate NonEmptyString(f: Field) {
    f.Str? && |f.s| >= 1
  }

  /** `z.string().optional()`. */
  predicate OptionalString(f: Field) {
    f.Missing? || f.Str?
  }

  /** The body satisfies every property rule of the schema. */
  predicate Conforms(b: RawBody) {
    && NonEmptyString(b.runId)
    && NonEmptyString(b.composition)
    && NonEmptyString(b.audioKey)
    && NonEmptyString(b.propsKey)
    && OptionalString(b.captionsKey)
    && NonEmptyString(b.outputKey)
    && NonEmptyString(b.logKey)
  }

  /** A parsed request could have come out of the schema: its required strings
      are non-empty. */
  predicate WellFormed(req: RenderRequest) {
    && req.runId != []
    && req.composition != []
    && req.audioKey != []
    && req.propsKey != []
    && req.outputKey != []
    && req.logKey != []
  }

  function OptionalValue(f: Field): Option<String> {
    if f.Str? then Some(f.s) else None
  }

  /** `RenderRequestSchema.safeParse(body)`: the typed request when the body
      conforms, nothing otherwise. */
  function SafeParse(b: RawBody): (r: Option<RenderRequest>)
    ensures r.Some? <==> Conforms(b)
    ensures r.Some? ==> WellFormed(r.value)
  {
    if Conforms(b) then
      Some(RenderRequest(b.runId.s, b.composition.s, b.audioKey.s, b.propsKey.s,
                         OptionalValue(b.captionsKey), b.outputKey.s, b.logKey.s))
    else None
  }

  /** The JSON body a request serialises to; an absent `captionsKey` is left out. */
  function ToBody(req: RenderRequest): RawBody {
    RawBody(Str(req.runId), Str(req.composition), Str(req.audioKey), Str(req.propsKey),
            if req.captionsKey.Some? then Str(req.captionsKey.value) else Missing,
            Str(req.outputKey), Str(req.logKey))
  }

  /** Serialising a well-formed request and parsing it back gives the request. */
  lemma ParseOfBody(req: RenderRequest)
    requires WellFormed(req)
    ensures SafeParse(ToBody(req)) == Some(req)
  {
  }

  /** A body that parses is exactly the body of the request it parses to: the
      parse neither invents nor loses a value. */
  lemma BodyOfParse(b: RawBody)
    requires SafeParse(b).Some?
    ensures ToBody(SafeParse(b).value) == b
  {
  }

  /** The schema checks length only: a run id of whitespace passes it. */
  lemma BlankRunIdConforms(b: RawBody)
    requires Conforms(b)
    ensures Conforms(b.(runId := Str(" ")))
    ensures SafeParse(b.(runId := Str(" "))).value.runId == " "
  {
  }

  /** An empty `captionsKey` passes the schema; a `null` one does not. */
  lemma EmptyCaptionsKey(b: RawBody)
    requires Conforms(b)
    ensures SafeParse(b.(captionsKey := Str(""))).value.captionsKey == Some("")
    ensures SafeParse(b.(captionsKey := NonString)) == None
  {
  }
}
