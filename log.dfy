/** The Log record (`logSchema`): one audit entry. No path is required. */
module LogModel {
  import opened Wrappers
  import opened Schema

  const EventTypeValues: seq<string> := ["attempt", "passphrase_failed", "success", "general_failure"]

  datatype Log = Log(
    documentId: Option<ObjectId>,
    govtId: Option<string>,
    appId: Option<ObjectId>,
    appUserId: Option<string>,
    eventType: Option<string>,
    eventMessage: Option<string>,
    timestamp: Instant)

  datatype RawLog = RawLog(
    documentId: Option<string>,
    govtId: Option<string>,
    appId: Option<string>,
    appUserId: Option<string>,
    eventType: Option<string>,
    eventMessage: Option<string>,
    timestamp: Option<Instant>)

  /** What every stored log entry satisfies. */
  predicate Conforms(l: Log) {
    && (l.documentId.Some? ==> ValidObjectId(l.documentId.value))
    && (l.appId.Some? ==> ValidObjectId(l.appId.value))
    && Allowed(l.eventType, EventTypeValues)
  }

  predicate Acceptable(raw: RawLog) {
    Castable(raw.documentId) && Castable(raw.appId) && Allowed(raw.eventType, EventTypeValues)
  }

  function Errors(raw: RawLog): seq<FieldError> {
    CheckObjectId(Top("documentId"), raw.documentId)
    + CheckObjectId(Top("appId"), raw.appId)
    + CheckEnum(Top("eventType"), raw.eventType, EventTypeValues)
  }

  /** Creating a log entry; an absent `timestamp` is `loadedAt`, which stands for the instant the module was loaded. */
  function Validate(raw: RawLog, loadedAt: Instant): (r: Result<Log, seq<FieldError>>)
    ensures r.Ok? <==> Acceptable(raw)
    ensures r.Ok? ==> Conforms(r.value)
    ensures r.Err? ==> r.error != []
    ensures !Castable(raw.documentId) ==> r.Err? && FieldError(Top("documentId"), CastFailed) in r.error
    ensures !Castable(raw.appId) ==> r.Err? && FieldError(Top("appId"), CastFailed) in r.error
    ensures !Allowed(raw.eventType, EventTypeValues) ==> r.Err? && FieldError(Top("eventType"), NotInEnum) in r.error
    ensures r.Err? ==> (FieldError(Top("documentId"), CastFailed) in r.error <==> !Castable(raw.documentId))
    ensures r.Err? ==> (FieldError(Top("appId"), CastFailed) in r.error <==> !Castable(raw.appId))
    ensures r.Err? ==> (FieldError(Top("eventType"), NotInEnum) in r.error <==> !Allowed(raw.eventType, EventTypeValues))
    ensures r.Err? ==> forall e :: e in r.error ==>
      e in [FieldError(Top("documentId"), CastFailed), FieldError(Top("appId"), CastFailed), FieldError(Top("eventType"), NotInEnum)]
    ensures r.Ok? ==> r.value.eventType == raw.eventType && r.value.eventMessage == raw.eventMessage
    ensures r.Ok? ==> r.value.documentId == CastOptional(raw.documentId) && r.value.appId == CastOptional(raw.appId)
    ensures r.Ok? ==> r.value.documentId.Some? == raw.documentId.Some? && r.value.appId.Some? == raw.appId.Some?
    ensures r.Ok? ==> r.value.govtId == raw.govtId && r.value.appUserId == raw.appUserId
    ensures r.Ok? ==> r.value.timestamp == (if raw.timestamp.Some? then raw.timestamp.value else loadedAt)
  {
    var errs := Errors(raw);
    if errs == [] then
      Ok(Log(CastOptional(raw.documentId), raw.govtId, CastOptional(raw.appId), raw.appUserId,
             raw.eventType, raw.eventMessage, raw.timestamp.GetOr(loadedAt)))
    else Err(errs)
  }

  function ToRaw(l: Log): RawLog {
    RawLog(HexOf(l.documentId), l.govtId, HexOf(l.appId), l.appUserId, l.eventType, l.eventMessage, Some(l.timestamp))
  }

  /** Validating the raw form of a stored entry gives it back. */
  lemma ValidateStored(l: Log, loadedAt: Instant)
    requires Conforms(l)
    ensures Validate(ToRaw(l), loadedAt) == Ok(l)
  {
    CastOptionalStored(l.documentId);
    CastOptionalStored(l.appId);
  }

  /** An entry with no path set at all is valid. */
  lemma NothingRequired(loadedAt: Instant)
    ensures Validate(RawLog(None, None, None, None, None, None, None), loadedAt) == Ok(Log(None, None, None, None, None, None, loadedAt))
  {
  }

  /** Every entry created without a timestamp in one process carries the same one. */
  lemma DefaultTimestampShared(a: RawLog, b: RawLog, loadedAt: Instant)
    requires Validate(a, loadedAt).Ok? && Validate(b, loadedAt).Ok?
    requires a.timestamp.None? && b.timestamp.None?
    ensures Validate(a, loadedAt).value.timestamp == Validate(b, loadedAt).value.timestamp == loadedAt
  {
  }
}
