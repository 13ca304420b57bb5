/**
 * The Application record (`applicationSchema`): a registered caller with its
 * client credentials. Validation, the update relation with immutable
 * `createdAt`, saving into a collection, and how a query filter path reads
 * a stored application.
 */
module ApplicationModel {
  import opened Wrappers
  import opened Schema

  datatype Application = Application(
    applicationName: string,
    clientId: string,
    clientSecret: string,
    origin: seq<string>,
    createdAt: Instant,
    updatedAt: Instant)

  datatype RawApplication = RawApplication(
    applicationName: Option<string>,
    clientId: Option<string>,
    clientSecret: Option<string>,
    origin: Option<seq<string>>,
    createdAt: Option<Instant>,
    updatedAt: Option<Instant>)

  const NoChange: RawApplication := RawApplication(None, None, None, None, None, None)

  /** The paths the schema declares, with the `_id` and `__v` Mongoose adds. */
  const SchemaPaths: set<string> := {"applicationName", "clientId", "clientSecret", "origin", "createdAt", "updatedAt", "_id", "__v"}

  /** What every stored application satisfies. */
  predicate Conforms(a: Application) {
    a.applicationName != "" && a.clientId != "" && a.clientSecret != ""
  }

  predicate Acceptable(raw: RawApplication) {
    Filled(raw.applicationName) && Filled(raw.clientId) && Filled(raw.clientSecret)
  }

  function Errors(raw: RawApplication): seq<FieldError> {
    CheckRequired(Top("applicationName"), raw.applicationName)
    + CheckRequired(Top("clientId"), raw.clientId)
    + CheckRequired(Top("clientSecret"), raw.clientSecret)
  }

  /**
   * Creating an application. `origin` defaults to the empty list; both
   * timestamps default to `loadedAt`, which stands for the instant the
   * module was loaded.
   */
  function Validate(raw: RawApplication, loadedAt: Instant): (r: Result<Application, seq<FieldError>>)
    ensures r.Ok? <==> Acceptable(raw)
    ensures r.Ok? ==> Conforms(r.value)
    ensures r.Err? ==> r.error != []
    ensures !Filled(raw.applicationName) ==> r.Err? && FieldError(Top("applicationName"), Required) in r.error
    ensures !Filled(raw.clientId) ==> r.Err? && FieldError(Top("clientId"), Required) in r.error
    ensures !Filled(raw.clientSecret) ==> r.Err? && FieldError(Top("clientSecret"), Required) in r.error
    ensures r.Err? ==> (FieldError(Top("applicationName"), Required) in r.error <==> !Filled(raw.applicationName))
    ensures r.Err? ==> (FieldError(Top("clientId"), Required) in r.error <==> !Filled(raw.clientId))
    ensures r.Err? ==> (FieldError(Top("clientSecret"), Required) in r.error <==> !Filled(raw.clientSecret))
    ensures r.Err? ==> forall e :: e in r.error ==>
      e in [FieldError(Top("applicationName"), Required), FieldError(Top("clientId"), Required), FieldError(Top("clientSecret"), Required)]
    ensures r.Ok? ==> r.value.applicationName == raw.applicationName.value
    ensures r.Ok? ==> r.value.clientId == raw.clientId.value && r.value.clientSecret == raw.clientSecret.value
    ensures r.Ok? ==> r.value.origin == (if raw.origin.Some? then raw.origin.value else [])
    ensures r.Ok? ==> r.value.createdAt == (if raw.createdAt.Some? then raw.createdAt.value else loadedAt)
    ensures r.Ok? ==> r.value.updatedAt == (if raw.updatedAt.Some? then raw.updatedAt.value else loadedAt)
  {
    var errs := Errors(raw);
    if errs == [] then
      Ok(Application(
        raw.applicationName.value, raw.clientId.value, raw.clientSecret.value,
        raw.origin.GetOr([]), raw.createdAt.GetOr(loadedAt), raw.updatedAt.GetOr(loadedAt)))
    else Err(errs)
  }

  function ToRaw(a: Application): RawApplication {
    RawApplication(Some(a.applicationName), Some(a.clientId), Some(a.clientSecret), Some(a.origin), Some(a.createdAt), Some(a.updatedAt))
  }

  /** The schema's constraints on the paths a patch sets: a set required string is non-empty. */
  predicate PatchOk(patch: RawApplication) {
    && (patch.applicationName.Some? ==> patch.applicationName.value != "")
    && (patch.clientId.Some? ==> patch.clientId.value != "")
    && (patch.clientSecret.Some? ==> patch.clientSecret.value != "")
  }

  /** Each path the patch sets replaces the stored one, except the immutable `createdAt`. */
  function Overlay(stored: Application, patch: RawApplication): (r: RawApplication)
    ensures r.createdAt == Some(stored.createdAt)
    ensures patch == NoChange ==> r == ToRaw(stored)
    ensures patch.applicationName.Some? ==> r.applicationName == patch.applicationName
    ensures patch.clientId.Some? ==> r.clientId == patch.clientId
    ensures patch.clientSecret.Some? ==> r.clientSecret == patch.clientSecret
    ensures patch.origin.Some? ==> r.origin == patch.origin
    ensures patch.updatedAt.Some? ==> r.updatedAt == patch.updatedAt
    ensures Conforms(stored) ==> (Acceptable(r) <==> PatchOk(patch))
  {
    RawApplication(
      Pick(patch.applicationName, Some(stored.applicationName)),
      Pick(patch.clientId, Some(stored.clientId)),
      Pick(patch.clientSecret, Some(stored.clientSecret)),
      Pick(patch.origin, Some(stored.origin)),
      Some(stored.createdAt),
      Pick(patch.updatedAt, Some(stored.updatedAt)))
  }

  /** Updating a stored application and saving it. */
  function Update(stored: Application, patch: RawApplication, loadedAt: Instant): (r: Result<Application, seq<FieldError>>)
    requires Conforms(stored)
    ensures r.Ok? <==> Acceptable(Overlay(stored, patch))
    ensures r.Ok? <==> PatchOk(patch)
    ensures r.Ok? ==> Conforms(r.value)
    ensures r.Ok? ==> r.value.createdAt == stored.createdAt
    ensures r.Ok? ==> r.value.updatedAt == (if patch.updatedAt.Some? then patch.updatedAt.value else stored.updatedAt)
    ensures r.Ok? ==> r.value.applicationName == (if patch.applicationName.Some? then patch.applicationName.value else stored.applicationName)
    ensures r.Ok? ==> r.value.clientId == (if patch.clientId.Some? then patch.clientId.value else stored.clientId)
    ensures r.Ok? ==> r.value.clientSecret == (if patch.clientSecret.Some? then patch.clientSecret.value else stored.clientSecret)
    ensures r.Ok? ==> r.value.origin == (if patch.origin.Some? then patch.origin.value else stored.origin)
  {
    Validate(Overlay(stored, patch), loadedAt)
  }

  /** Validating the raw form of a stored application gives it back. */
  lemma ValidateStored(a: Application, loadedAt: Instant)
    requires Conforms(a)
    ensures Validate(ToRaw(a), loadedAt) == Ok(a)
  {
  }

  /** A patch that sets `createdAt` has the same effect as one that does not. */
  lemma CreatedAtImmutable(a: Application, patch: RawApplication, t: Instant, loadedAt: Instant)
    requires Conforms(a)
    ensures Update(a, patch.(createdAt := Some(t)), loadedAt) == Update(a, patch.(createdAt := None), loadedAt)
  {
  }

  /** An empty patch leaves a stored application as it is. */
  lemma UpdateNothing(a: Application, loadedAt: Instant)
    requires Conforms(a)
    ensures Update(a, NoChange, loadedAt) == Ok(a)
  {
  }

  /** Two applications created without timestamps share one `createdAt`: the instant `loadedAt` fixed when the module loads. */
  lemma DefaultTimestampsShared(a: RawApplication, b: RawApplication, loadedAt: Instant)
    requires Validate(a, loadedAt).Ok? && Validate(b, loadedAt).Ok?
    requires a.createdAt.None? && b.createdAt.None?
    ensures Validate(a, loadedAt).value.createdAt == Validate(b, loadedAt).value.createdAt == loadedAt
  {
  }

  /**
   * Saving an application into a collection. The schema declares no unique
   * index, so acceptance never depends on what is already stored.
   */
  function Insert(stored: seq<Application>, raw: RawApplication, loadedAt: Instant): (r: Result<seq<Application>, seq<FieldError>>)
    ensures r.Ok? <==> Acceptable(raw)
    ensures r.Ok? ==> r.value == stored + [Validate(raw, loadedAt).value]
    ensures r.Err? ==> r.error == Validate(raw, loadedAt).error
  {
    match Validate(raw, loadedAt)
    case Ok(a) => Ok(stored + [a])
    case Err(e) => Err(e)
  }

  /** Two stored applications may share a `clientId`. */
  lemma ClientIdNotUnique(a: Application, raw: RawApplication, loadedAt: Instant)
    requires Conforms(a)
    requires Acceptable(raw) && raw.clientId == Some(a.clientId)
    ensures Insert([a], raw, loadedAt).Ok?
    ensures
      var s := Insert([a], raw, loadedAt).value;
      |s| == 2 && s[0].clientId == s[1].clientId
  {
  }

  /**
   * Whether a stored application matches one equality condition of a query
   * filter on `path`: a String path by equality, the `origin` array by
   * containing the value. The model's query semantics cover only these
   * paths; a condition on any other path, the timestamps and `_id` included,
   * is taken never to hold (Mongoose would cast a string for a Date or
   * ObjectId path, which is not modelled).
   */
  predicate PathHolds(a: Application, path: string, value: string) {
    if path == "applicationName" then a.applicationName == value
    else if path == "clientId" then a.clientId == value
    else if path == "clientSecret" then a.clientSecret == value
    else if path == "origin" then value in a.origin
    else false
  }
}
