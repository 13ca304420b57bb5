/**
 * The Document record (`documentSchema` with its embedded `createdBySchema`
 * and `signersSchema`): validation of a raw record into a stored one, with
 * Mongoose's defaults and `uppercase` setter, and the update relation that
 * keeps `createdAt` immutable.
 */
module DocumentModel {
  import opened Wrappers
  import opened Schema
  import Text

  const StatusValues: seq<string> := ["pending", "signed", "failed", "canceled"]
  const SignerStatusValues: seq<string> := ["pending", "signed"]
  const SigningModeValues: seq<string> := ["multiple", "single"]
  const VisualizeValues: seq<string> := ["invisible", "visible"]
  const DefaultStatus: string := "pending"
  const DefaultVisualize: string := "invisible"

  datatype CreatedBy = CreatedBy(appId: Option<ObjectId>, name: Option<string>)

  /**
   * One signer as stored and as given: every path is optional and only
   * `status` is checked, against its enum.
   */
  datatype Signer = Signer(govtId: Option<string>, signedAt: Option<string>, status: Option<string>, odr: Option<int>)

  /** A stored document. */
  datatype Document = Document(
    documentName: string,
    documentNum: Option<string>,
    description: string,
    createdBy: CreatedBy,
    createdAt: Instant,
    updatedAt: Instant,
    statuses: string,
    signer: seq<Signer>,
    signingMode: Option<string>,
    visualize: string,
    visualizePageNumber: Option<int>,
    originXY: seq<int>,
    width: Option<int>,
    height: Option<int>,
    reason: Option<string>,
    pdfFile: string,
    signedPdfFile: Option<string>)

  datatype RawCreatedBy = RawCreatedBy(appId: Option<string>, name: Option<string>)

  /** A document as given to the model (or as a patch): every path may be absent. */
  datatype RawDocument = RawDocument(
    documentName: Option<string>,
    documentNum: Option<string>,
    description: Option<string>,
    createdBy: Option<RawCreatedBy>,
    createdAt: Option<Instant>,
    updatedAt: Option<Instant>,
    statuses: Option<string>,
    signer: Option<seq<Signer>>,
    signingMode: Option<string>,
    visualize: Option<string>,
    visualizePageNumber: Option<int>,
    originXY: Option<seq<int>>,
    width: Option<int>,
    height: Option<int>,
    reason: Option<string>,
    pdfFile: Option<string>,
    signedPdfFile: Option<string>)

  /** A patch that sets nothing. */
  const NoChange: RawDocument := RawDocument(None, None, None, None, None, None, None, None, None, None, None, None, None, None, None, None, None)

  predicate SignerConforms(s: Signer) {
    Allowed(s.status, SignerStatusValues)
  }

  /** What every stored document satisfies. */
  predicate Conforms(d: Document) {
    && d.documentName != ""
    && d.description != ""
    && d.pdfFile != ""
    && (d.documentNum.Some? ==> Text.IsUpper(d.documentNum.value))
    && (d.createdBy.appId.Some? ==> ValidObjectId(d.createdBy.appId.value))
    && d.statuses in StatusValues
    && Allowed(d.signingMode, SigningModeValues)
    && d.visualize in VisualizeValues
    && forall i :: 0 <= i < |d.signer| ==> SignerConforms(d.signer[i])
  }

  /** The schema's constraints on a raw document, path by path. */
  predicate Acceptable(raw: RawDocument) {
    && Filled(raw.documentName)
    && Filled(raw.description)
    && raw.createdBy.Some?
    && Castable(raw.createdBy.value.appId)
    && Allowed(raw.statuses, StatusValues)
    && (raw.signer.Some? ==> forall i :: 0 <= i < |raw.signer.value| ==> SignerConforms(raw.signer.value[i]))
    && Allowed(raw.signingMode, SigningModeValues)
    && Allowed(raw.visualize, VisualizeValues)
    && Filled(raw.pdfFile)
  }

  /** The enum errors of the signers from position `from` on, each reported at its index. */
  function SignerErrors(signers: seq<Signer>, from: nat): (errs: seq<FieldError>)
    ensures errs == [] <==> forall i :: 0 <= i < |signers| ==> SignerConforms(signers[i])
    ensures forall i :: 0 <= i < |signers| ==>
      (FieldError(Element("signer", from + i, "status"), NotInEnum) in errs <==> !SignerConforms(signers[i]))
    ensures forall e :: e in errs ==>
      && e.kind == NotInEnum && e.path.Element? && e.path.parent == "signer" && e.path.name == "status"
      && from <= e.path.index < from + |signers|
    decreases |signers|
  {
    if signers == [] then []
    else
      CheckEnum(Element("signer", from, "status"), signers[0].status, SignerStatusValues)
      + SignerErrors(signers[1..], from + 1)
  }

  /** The errors a document can draw outside its signers: one per checked path. */
  const PathErrors: seq<FieldError> := [
    FieldError(Top("documentName"), Required),
    FieldError(Top("description"), Required),
    FieldError(Top("createdBy"), Required),
    FieldError(Nested("createdBy", "appId"), CastFailed),
    FieldError(Top("statuses"), NotInEnum),
    FieldError(Top("signingMode"), NotInEnum),
    FieldError(Top("visualize"), NotInEnum),
    FieldError(Top("pdfFile"), Required)]

  /** Every validation error of a raw document, in the schema's path order. */
  function Errors(raw: RawDocument): seq<FieldError> {
    CheckRequired(Top("documentName"), raw.documentName)
    + CheckRequired(Top("description"), raw.description)
    + (if raw.createdBy.None? then [FieldError(Top("createdBy"), Required)]
       else CheckObjectId(Nested("createdBy", "appId"), raw.createdBy.value.appId))
    + CheckEnum(Top("statuses"), raw.statuses, StatusValues)
    + SignerListErrors(raw.signer)
    + CheckEnum(Top("signingMode"), raw.signingMode, SigningModeValues)
    + CheckEnum(Top("visualize"), raw.visualize, VisualizeValues)
    + CheckRequired(Top("pdfFile"), raw.pdfFile)
  }

  /** The errors of an optional signer list: none when it is absent. */
  function SignerListErrors(signers: Option<seq<Signer>>): (errs: seq<FieldError>)
    ensures errs == [] <==> signers.None? || forall i :: 0 <= i < |signers.value| ==> SignerConforms(signers.value[i])
    ensures forall e :: e in errs ==> e.path.Element?
  {
    if signers.None? then [] else SignerErrors(signers.value, 0)
  }

  /** The `uppercase` setter of `documentNum`. */
  function UpperNum(v: Option<string>): Option<string> {
    if v.None? then None else Some(Text.ToUpper(v.value))
  }

  /**
   * Casting, defaults and setters applied to a raw document that passes
   * validation. `loadedAt` stands for the instant the schema module was
   * loaded: each `default: new Date()` is fixed then, and the defaults of
   * both timestamps are taken to be that one instant.
   */
  function Build(raw: RawDocument, loadedAt: Instant): Document
    requires Acceptable(raw)
  {
    Document(
      raw.documentName.value,
      UpperNum(raw.documentNum),
      raw.description.value,
      CreatedBy(CastOptional(raw.createdBy.value.appId), raw.createdBy.value.name),
      raw.createdAt.GetOr(loadedAt),
      raw.updatedAt.GetOr(loadedAt),
      raw.statuses.GetOr(DefaultStatus),
      raw.signer.GetOr([]),
      raw.signingMode,
      raw.visualize.GetOr(DefaultVisualize),
      raw.visualizePageNumber,
      raw.originXY.GetOr([]),
      raw.width,
      raw.height,
      raw.reason,
      raw.pdfFile.value,
      raw.signedPdfFile)
  }

  /** Creating a document: its validation errors, or the stored document. */
  function Validate(raw: RawDocument, loadedAt: Instant): (r: Result<Document, seq<FieldError>>)
    ensures r.Ok? <==> Acceptable(raw)
    ensures r.Ok? ==> Conforms(r.value)
    ensures r.Err? ==> r.error != []
    ensures !Filled(raw.documentName) ==> r.Err? && FieldError(Top("documentName"), Required) in r.error
    ensures !Filled(raw.description) ==> r.Err? && FieldError(Top("description"), Required) in r.error
    ensures raw.createdBy.None? ==> r.Err? && FieldError(Top("createdBy"), Required) in r.error
    ensures !Filled(raw.pdfFile) ==> r.Err? && FieldError(Top("pdfFile"), Required) in r.error
    ensures !Allowed(raw.statuses, StatusValues) ==> r.Err? && FieldError(Top("statuses"), NotInEnum) in r.error
    ensures !Allowed(raw.signingMode, SigningModeValues) ==> r.Err? && FieldError(Top("signingMode"), NotInEnum) in r.error
    ensures !Allowed(raw.visualize, VisualizeValues) ==> r.Err? && FieldError(Top("visualize"), NotInEnum) in r.error
    ensures r.Ok? ==> r.value.statuses == (if raw.statuses.Some? then raw.statuses.value else "pending")
    ensures r.Ok? ==> r.value.visualize == (if raw.visualize.Some? then raw.visualize.value else "invisible")
    ensures r.Ok? ==> r.value.createdAt == (if raw.createdAt.Some? then raw.createdAt.value else loadedAt)
    ensures r.Ok? ==> r.value.updatedAt == (if raw.updatedAt.Some? then raw.updatedAt.value else loadedAt)
    ensures r.Ok? ==> r.value.documentName == raw.documentName.value
    ensures r.Ok? ==> r.value.documentNum == (if raw.documentNum.Some? then Some(Text.ToUpper(raw.documentNum.value)) else None)
    ensures r.Ok? ==> r.value.description == raw.description.value
    ensures r.Ok? ==> r.value.createdBy == CreatedBy(CastOptional(raw.createdBy.value.appId), raw.createdBy.value.name)
    ensures r.Ok? ==> r.value.signer == (if raw.signer.Some? then raw.signer.value else [])
    ensures r.Ok? ==> r.value.signingMode == raw.signingMode
    ensures r.Ok? ==> r.value.visualizePageNumber == raw.visualizePageNumber
    ensures r.Ok? ==> r.value.originXY == (if raw.originXY.Some? then raw.originXY.value else [])
    ensures r.Ok? ==> r.value.width == raw.width && r.value.height == raw.height
    ensures r.Ok? ==> r.value.reason == raw.reason
    ensures r.Ok? ==> r.value.pdfFile == raw.pdfFile.value
    ensures r.Ok? ==> r.value.signedPdfFile == raw.signedPdfFile
  {
    var errs := Errors(raw);
    if errs == [] then
      Text.ToUpperIsUpper(if raw.documentNum.Some? then raw.documentNum.value else "");
      Ok(Build(raw, loadedAt))
    else Err(errs)
  }

  /** The errors of a raw document name each required string path exactly when it is absent or empty. */
  lemma ErrorsOfRequiredPaths(raw: RawDocument)
    ensures var errs := Errors(raw);
      && (FieldError(Top("documentName"), Required) in errs <==> !Filled(raw.documentName))
      && (FieldError(Top("description"), Required) in errs <==> !Filled(raw.description))
      && (FieldError(Top("pdfFile"), Required) in errs <==> !Filled(raw.pdfFile))
  {
    var errs := Errors(raw);
    var name := CheckRequired(Top("documentName"), raw.documentName);
    var description := CheckRequired(Top("description"), raw.description);
    var createdBy := if raw.createdBy.None? then [FieldError(Top("createdBy"), Required)]
      else CheckObjectId(Nested("createdBy", "appId"), raw.createdBy.value.appId);
    var statuses := CheckEnum(Top("statuses"), raw.statuses, StatusValues);
    var signers := SignerListErrors(raw.signer);
    var mode := CheckEnum(Top("signingMode"), raw.signingMode, SigningModeValues);
    var visualize := CheckEnum(Top("visualize"), raw.visualize, VisualizeValues);
    var pdf := CheckRequired(Top("pdfFile"), raw.pdfFile);
    assert errs == name + description + createdBy + statuses + signers + mode + visualize + pdf;
    assert FieldError(Top("documentName"), Required) in errs <==> !Filled(raw.documentName) by {
      assert FieldError(Top("documentName"), Required) !in description;
      assert FieldError(Top("documentName"), Required) !in createdBy;
      assert FieldError(Top("documentName"), Required) !in statuses;
      assert FieldError(Top("documentName"), Required) !in signers;
      assert FieldError(Top("documentName"), Required) !in mode;
      assert FieldError(Top("documentName"), Required) !in visualize;
      assert FieldError(Top("documentName"), Required) !in pdf;
    }
    assert FieldError(Top("description"), Required) in errs <==> !Filled(raw.description) by {
      assert FieldError(Top("description"), Required) !in name;
      assert FieldError(Top("description"), Required) !in createdBy;
      assert FieldError(Top("description"), Required) !in statuses;
      assert FieldError(Top("description"), Required) !in signers;
      assert FieldError(Top("description"), Required) !in mode;
      assert FieldError(Top("description"), Required) !in visualize;
      assert FieldError(Top("description"), Required) !in pdf;
    }
    assert FieldError(Top("pdfFile"), Required) in errs <==> !Filled(raw.pdfFile) by {
      assert FieldError(Top("pdfFile"), Required) !in name;
      assert FieldError(Top("pdfFile"), Required) !in description;
      assert FieldError(Top("pdfFile"), Required) !in createdBy;
      assert FieldError(Top("pdfFile"), Required) !in statuses;
      assert FieldError(Top("pdfFile"), Required) !in signers;
      assert FieldError(Top("pdfFile"), Required) !in mode;
      assert FieldError(Top("pdfFile"), Required) !in visualize;
    }
  }

  /** The errors of a raw document name `createdBy` exactly when it is absent, and its `appId` exactly when that does not cast. */
  lemma ErrorsOfCreatedBy(raw: RawDocument)
    ensures var errs := Errors(raw);
      && (FieldError(Top("createdBy"), Required) in errs <==> raw.createdBy.None?)
      && (FieldError(Nested("createdBy", "appId"), CastFailed) in errs <==> raw.createdBy.Some? && !Castable(raw.createdBy.value.appId))
  {
    var errs := Errors(raw);
    var name := CheckRequired(Top("documentName"), raw.documentName);
    var description := CheckRequired(Top("description"), raw.description);
    var createdBy := if raw.createdBy.None? then [FieldError(Top("createdBy"), Required)]
      else CheckObjectId(Nested("createdBy", "appId"), raw.createdBy.value.appId);
    var statuses := CheckEnum(Top("statuses"), raw.statuses, StatusValues);
    var signers := SignerListErrors(raw.signer);
    var mode := CheckEnum(Top("signingMode"), raw.signingMode, SigningModeValues);
    var visualize := CheckEnum(Top("visualize"), raw.visualize, VisualizeValues);
    var pdf := CheckRequired(Top("pdfFile"), raw.pdfFile);
    assert errs == name + description + createdBy + statuses + signers + mode + visualize + pdf;
    assert FieldError(Top("createdBy"), Required) in errs <==> raw.createdBy.None? by {
      assert FieldError(Top("createdBy"), Required) !in name;
      assert FieldError(Top("createdBy"), Required) !in description;
      assert FieldError(Top("createdBy"), Required) !in statuses;
      assert FieldError(Top("createdBy"), Required) !in signers;
      assert FieldError(Top("createdBy"), Required) !in mode;
      assert FieldError(Top("createdBy"), Required) !in visualize;
      assert FieldError(Top("createdBy"), Required) !in pdf;
    }
    assert FieldError(Nested("createdBy", "appId"), CastFailed) in errs <==> raw.createdBy.Some? && !Castable(raw.createdBy.value.appId) by {
      assert FieldError(Nested("createdBy", "appId"), CastFailed) !in name;
      assert FieldError(Nested("createdBy", "appId"), CastFailed) !in description;
      assert FieldError(Nested("createdBy", "appId"), CastFailed) !in statuses;
      assert FieldError(Nested("createdBy", "appId"), CastFailed) !in signers;
      assert FieldError(Nested("createdBy", "appId"), CastFailed) !in mode;
      assert FieldError(Nested("createdBy", "appId"), CastFailed) !in visualize;
      assert FieldError(Nested("createdBy", "appId"), CastFailed) !in pdf;
    }
  }

  /** The errors of a raw document name each enum path exactly when its value is present and not listed. */
  lemma ErrorsOfEnumPaths(raw: RawDocument)
    ensures var errs := Errors(raw);
      && (FieldError(Top("statuses"), NotInEnum) in errs <==> !Allowed(raw.statuses, StatusValues))
      && (FieldError(Top("signingMode"), NotInEnum) in errs <==> !Allowed(raw.signingMode, SigningModeValues))
      && (FieldError(Top("visualize"), NotInEnum) in errs <==> !Allowed(raw.visualize, VisualizeValues))
  {
    var errs := Errors(raw);
    var name := CheckRequired(Top("documentName"), raw.documentName);
    var description := CheckRequired(Top("description"), raw.description);
    var createdBy := if raw.createdBy.None? then [FieldError(Top("createdBy"), Required)]
      else CheckObjectId(Nested("createdBy", "appId"), raw.createdBy.value.appId);
    var statuses := CheckEnum(Top("statuses"), raw.statuses, StatusValues);
    var signers := SignerListErrors(raw.signer);
    var mode := CheckEnum(Top("signingMode"), raw.signingMode, SigningModeValues);
    var visualize := CheckEnum(Top("visualize"), raw.visualize, VisualizeValues);
    var pdf := CheckRequired(Top("pdfFile"), raw.pdfFile);
    assert errs == name + description + createdBy + statuses + signers + mode + visualize + pdf;
    assert FieldError(Top("statuses"), NotInEnum) in errs <==> !Allowed(raw.statuses, StatusValues) by {
      assert FieldError(Top("statuses"), NotInEnum) !in name;
      assert FieldError(Top("statuses"), NotInEnum) !in description;
      assert FieldError(Top("statuses"), NotInEnum) !in createdBy;
      assert FieldError(Top("statuses"), NotInEnum) !in signers;
      assert FieldError(Top("statuses"), NotInEnum) !in mode;
      assert FieldError(Top("statuses"), NotInEnum) !in visualize;
      assert FieldError(Top("statuses"), NotInEnum) !in pdf;
    }
    assert FieldError(Top("signingMode"), NotInEnum) in errs <==> !Allowed(raw.signingMode, SigningModeValues) by {
      assert FieldError(Top("signingMode"), NotInEnum) !in name;
      assert FieldError(Top("signingMode"), NotInEnum) !in description;
      assert FieldError(Top("signingMode"), NotInEnum) !in createdBy;
      assert FieldError(Top("signingMode"), NotInEnum) !in statuses;
      assert FieldError(Top("signingMode"), NotInEnum) !in signers;
      assert FieldError(Top("signingMode"), NotInEnum) !in visualize;
      assert FieldError(Top("signingMode"), NotInEnum) !in pdf;
    }
    assert FieldError(Top("visualize"), NotInEnum) in errs <==> !Allowed(raw.visualize, VisualizeValues) by {
      assert FieldError(Top("visualize"), NotInEnum) !in name;
      assert FieldError(Top("visualize"), NotInEnum) !in description;
      assert FieldError(Top("visualize"), NotInEnum) !in createdBy;
      assert FieldError(Top("visualize"), NotInEnum) !in statuses;
      assert FieldError(Top("visualize"), NotInEnum) !in signers;
      assert FieldError(Top("visualize"), NotInEnum) !in mode;
      assert FieldError(Top("visualize"), NotInEnum) !in pdf;
    }
  }

  /**
   * A rejected document is told about a checked path exactly when that path
   * fails: no error is reported for a path that meets the schema.
   */
  lemma ValidateReportsFailingPaths(raw: RawDocument, loadedAt: Instant)
    requires !Acceptable(raw)
    ensures Validate(raw, loadedAt).Err?
    ensures var errs := Validate(raw, loadedAt).error;
      && (FieldError(Top("documentName"), Required) in errs <==> !Filled(raw.documentName))
      && (FieldError(Top("description"), Required) in errs <==> !Filled(raw.description))
      && (FieldError(Top("createdBy"), Required) in errs <==> raw.createdBy.None?)
      && (FieldError(Nested("createdBy", "appId"), CastFailed) in errs <==> raw.createdBy.Some? && !Castable(raw.createdBy.value.appId))
      && (FieldError(Top("statuses"), NotInEnum) in errs <==> !Allowed(raw.statuses, StatusValues))
      && (FieldError(Top("signingMode"), NotInEnum) in errs <==> !Allowed(raw.signingMode, SigningModeValues))
      && (FieldError(Top("visualize"), NotInEnum) in errs <==> !Allowed(raw.visualize, VisualizeValues))
      && (FieldError(Top("pdfFile"), Required) in errs <==> !Filled(raw.pdfFile))
  {
    ErrorsOfRequiredPaths(raw);
    ErrorsOfCreatedBy(raw);
    ErrorsOfEnumPaths(raw);
    assert Validate(raw, loadedAt).error == Errors(raw);
  }

  /** The errors of a raw document outside the checked paths are exactly its failing signers. */
  lemma ErrorsOfFailingSigners(raw: RawDocument)
    ensures raw.signer.Some? ==> forall i :: 0 <= i < |raw.signer.value| ==>
      (FieldError(Element("signer", i, "status"), NotInEnum) in Errors(raw) <==> !SignerConforms(raw.signer.value[i]))
    ensures forall e :: e in Errors(raw) ==>
      e in PathErrors || (raw.signer.Some? && e.kind == NotInEnum && e.path.Element?
        && e.path.parent == "signer" && e.path.name == "status" && e.path.index < |raw.signer.value|)
  {
    var errs := Errors(raw);
    var createdBy :=
      if raw.createdBy.None? then [FieldError(Top("createdBy"), Required)]
      else CheckObjectId(Nested("createdBy", "appId"), raw.createdBy.value.appId);
    var front := CheckRequired(Top("documentName"), raw.documentName)
      + CheckRequired(Top("description"), raw.description) + createdBy
      + CheckEnum(Top("statuses"), raw.statuses, StatusValues);
    var signers := SignerListErrors(raw.signer);
    var back := CheckEnum(Top("signingMode"), raw.signingMode, SigningModeValues)
      + CheckEnum(Top("visualize"), raw.visualize, VisualizeValues)
      + CheckRequired(Top("pdfFile"), raw.pdfFile);
    assert errs == front + signers + back;
    assert forall e :: e in front ==> e in PathErrors;
    assert forall e :: e in back ==> e in PathErrors;
    if raw.signer.Some? {
      assert signers == SignerErrors(raw.signer.value, 0);
      forall i | 0 <= i < |raw.signer.value|
        ensures FieldError(Element("signer", i, "status"), NotInEnum) in errs <==> !SignerConforms(raw.signer.value[i])
      {
        var x := FieldError(Element("signer", i, "status"), NotInEnum);
        assert x !in front && x !in back;
      }
    }
  }

  /**
   * A rejected document is told about the signers it holds and the checked
   * paths, and nothing else; a signer is reported exactly when its status
   * is out of its enum.
   */
  lemma ValidateReportsFailingSigners(raw: RawDocument, loadedAt: Instant)
    requires !Acceptable(raw)
    ensures Validate(raw, loadedAt).Err?
    ensures raw.signer.Some? ==> forall i :: 0 <= i < |raw.signer.value| ==>
      (FieldError(Element("signer", i, "status"), NotInEnum) in Validate(raw, loadedAt).error <==> !SignerConforms(raw.signer.value[i]))
    ensures forall e :: e in Validate(raw, loadedAt).error ==>
      e in PathErrors || (raw.signer.Some? && e.kind == NotInEnum && e.path.Element?
        && e.path.parent == "signer" && e.path.name == "status" && e.path.index < |raw.signer.value|)
  {
    ErrorsOfFailingSigners(raw);
    assert Validate(raw, loadedAt).error == Errors(raw);
  }

  /** The stored document as a raw record that sets every path. */
  function ToRaw(d: Document): RawDocument {
    RawDocument(
      Some(d.documentName), d.documentNum, Some(d.description),
      Some(RawCreatedBy(HexOf(d.createdBy.appId), d.createdBy.name)),
      Some(d.createdAt), Some(d.updatedAt), Some(d.statuses), Some(d.signer), d.signingMode,
      Some(d.visualize), d.visualizePageNumber, Some(d.originXY), d.width, d.height, d.reason,
      Some(d.pdfFile), d.signedPdfFile)
  }

  /**
   * The schema's constraints on the paths a patch sets: a set required
   * string is non-empty, a set `createdBy.appId` casts, a set enum path is
   * listed and every signer of a set list conforms.
   */
  predicate PatchOk(patch: RawDocument) {
    && (patch.documentName.Some? ==> patch.documentName.value != "")
    && (patch.description.Some? ==> patch.description.value != "")
    && (patch.createdBy.Some? ==> Castable(patch.createdBy.value.appId))
    && Allowed(patch.statuses, StatusValues)
    && (patch.signer.Some? ==> forall i :: 0 <= i < |patch.signer.value| ==> SignerConforms(patch.signer.value[i]))
    && Allowed(patch.signingMode, SigningModeValues)
    && Allowed(patch.visualize, VisualizeValues)
    && (patch.pdfFile.Some? ==> patch.pdfFile.value != "")
  }

  /** Each path the patch sets replaces the stored one; `createdAt` is immutable and keeps its value. */
  function Overlay(stored: Document, patch: RawDocument): (r: RawDocument)
    ensures r.createdAt == Some(stored.createdAt)
    ensures patch == NoChange ==> r == ToRaw(stored)
    ensures patch.documentName.Some? ==> r.documentName == patch.documentName
    ensures patch.documentNum.Some? ==> r.documentNum == patch.documentNum
    ensures patch.description.Some? ==> r.description == patch.description
    ensures patch.createdBy.Some? ==> r.createdBy == patch.createdBy
    ensures patch.updatedAt.Some? ==> r.updatedAt == patch.updatedAt
    ensures patch.statuses.Some? ==> r.statuses == patch.statuses
    ensures patch.signer.Some? ==> r.signer == patch.signer
    ensures patch.signingMode.Some? ==> r.signingMode == patch.signingMode
    ensures patch.visualize.Some? ==> r.visualize == patch.visualize
    ensures patch.visualizePageNumber.Some? ==> r.visualizePageNumber == patch.visualizePageNumber
    ensures patch.originXY.Some? ==> r.originXY == patch.originXY
    ensures patch.width.Some? ==> r.width == patch.width
    ensures patch.height.Some? ==> r.height == patch.height
    ensures patch.reason.Some? ==> r.reason == patch.reason
    ensures patch.pdfFile.Some? ==> r.pdfFile == patch.pdfFile
    ensures patch.signedPdfFile.Some? ==> r.signedPdfFile == patch.signedPdfFile
    ensures Conforms(stored) ==> (Acceptable(r) <==> PatchOk(patch))
  {
    var base := ToRaw(stored);
    assert Conforms(stored) ==> Castable(base.createdBy.value.appId) by {
      if Conforms(stored) {
        CastOptionalStored(stored.createdBy.appId);
      }
    }
    RawDocument(
      Pick(patch.documentName, base.documentName),
      Pick(patch.documentNum, base.documentNum),
      Pick(patch.description, base.description),
      Pick(patch.createdBy, base.createdBy),
      base.createdAt,
      Pick(patch.updatedAt, base.updatedAt),
      Pick(patch.statuses, base.statuses),
      Pick(patch.signer, base.signer),
      Pick(patch.signingMode, base.signingMode),
      Pick(patch.visualize, base.visualize),
      Pick(patch.visualizePageNumber, base.visualizePageNumber),
      Pick(patch.originXY, base.originXY),
      Pick(patch.width, base.width),
      Pick(patch.height, base.height),
      Pick(patch.reason, base.reason),
      Pick(patch.pdfFile, base.pdfFile),
      Pick(patch.signedPdfFile, base.signedPdfFile))
  }

  /**
   * Updating a stored document with a patch and saving it: the patched
   * record is validated again. No transition rule between `statuses`
   * values exists; any listed value may replace any other.
   */
  function Update(stored: Document, patch: RawDocument, loadedAt: Instant): (r: Result<Document, seq<FieldError>>)
    requires Conforms(stored)
    ensures r.Ok? ==> r.value.createdAt == stored.createdAt
    ensures r.Ok? ==> Conforms(r.value)
    ensures r.Ok? <==> Acceptable(Overlay(stored, patch))
    ensures r.Ok? <==> PatchOk(patch)
    ensures r.Ok? ==> r.value.updatedAt == (if patch.updatedAt.Some? then patch.updatedAt.value else stored.updatedAt)
    ensures r.Ok? ==> r.value.documentName == (if patch.documentName.Some? then patch.documentName.value else stored.documentName)
    ensures r.Ok? ==> r.value.documentNum == (if patch.documentNum.Some? then Some(Text.ToUpper(patch.documentNum.value)) else stored.documentNum)
    ensures r.Ok? ==> r.value.description == (if patch.description.Some? then patch.description.value else stored.description)
    ensures r.Ok? ==>
      r.value.createdBy == (if patch.createdBy.Some? then CreatedBy(CastOptional(patch.createdBy.value.appId), patch.createdBy.value.name) else stored.createdBy)
    ensures r.Ok? ==> r.value.statuses == (if patch.statuses.Some? then patch.statuses.value else stored.statuses)
    ensures r.Ok? ==> r.value.signer == (if patch.signer.Some? then patch.signer.value else stored.signer)
    ensures r.Ok? ==> r.value.signingMode == (if patch.signingMode.Some? then patch.signingMode else stored.signingMode)
    ensures r.Ok? ==> r.value.visualize == (if patch.visualize.Some? then patch.visualize.value else stored.visualize)
    ensures r.Ok? ==> r.value.visualizePageNumber == (if patch.visualizePageNumber.Some? then patch.visualizePageNumber else stored.visualizePageNumber)
    ensures r.Ok? ==> r.value.originXY == (if patch.originXY.Some? then patch.originXY.value else stored.originXY)
    ensures r.Ok? ==> r.value.width == (if patch.width.Some? then patch.width else stored.width)
    ensures r.Ok? ==> r.value.height == (if patch.height.Some? then patch.height else stored.height)
    ensures r.Ok? ==> r.value.reason == (if patch.reason.Some? then patch.reason else stored.reason)
    ensures r.Ok? ==> r.value.pdfFile == (if patch.pdfFile.Some? then patch.pdfFile.value else stored.pdfFile)
    ensures r.Ok? ==> r.value.signedPdfFile == (if patch.signedPdfFile.Some? then patch.signedPdfFile else stored.signedPdfFile)
  {
    CastOptionalStored(stored.createdBy.appId);
    Text.ToUpperFixesUpper(stored.documentNum.GetOr(""));
    var raw := Overlay(stored, patch);
    var r := Validate(raw, loadedAt);
    assert r.Ok? ==> r.value == Build(raw, loadedAt);
    r
  }

  /**
   * Nothing restricts how `statuses` changes: a stored document may move from
   * any listed status to any other, terminal ones included, and nothing else
   * changes.
   */
  lemma StatusAnyTransition(d: Document, status: string, loadedAt: Instant)
    requires Conforms(d)
    requires status in StatusValues
    ensures Update(d, NoChange.(statuses := Some(status)), loadedAt) == Ok(d.(statuses := status))
  {
    ValidateStored(d.(statuses := status), loadedAt);
  }

  /** Validating the raw form of a stored document gives it back: the setters and defaults are idempotent. */
  lemma ValidateStored(d: Document, loadedAt: Instant)
    requires Conforms(d)
    ensures Validate(ToRaw(d), loadedAt) == Ok(d)
  {
    CastOptionalStored(d.createdBy.appId);
    if d.documentNum.Some? {
      Text.ToUpperFixesUpper(d.documentNum.value);
    }
  }

  /** An empty patch leaves a stored document as it is. */
  lemma UpdateNothing(d: Document, loadedAt: Instant)
    requires Conforms(d)
    ensures Update(d, NoChange, loadedAt) == Ok(d)
  {
    ValidateStored(d, loadedAt);
  }

  /** A patch that sets `createdAt` is accepted or refused exactly as without it, and never moves it. */
  lemma CreatedAtImmutable(d: Document, patch: RawDocument, t: Instant, loadedAt: Instant)
    requires Conforms(d)
    ensures Update(d, patch.(createdAt := Some(t)), loadedAt) == Update(d, patch.(createdAt := None), loadedAt)
    ensures Update(d, patch.(createdAt := Some(t)), loadedAt).Ok? ==>
      Update(d, patch.(createdAt := Some(t)), loadedAt).value.createdAt == d.createdAt
  {
  }

  /** Applying the same patch twice is the same as applying it once. */
  lemma UpdateIdempotent(d: Document, patch: RawDocument, loadedAt: Instant)
    requires Conforms(d)
    requires PatchOk(patch)
    ensures Update(Update(d, patch, loadedAt).value, patch, loadedAt) == Update(d, patch, loadedAt)
  {
    var d1 := Update(d, patch, loadedAt).value;
    ValidateStored(d1, loadedAt);
    if patch.documentNum.Some? {
      Text.ToUpperIdempotent(patch.documentNum.value);
    }
    CastOptionalStored(d1.createdBy.appId);
    if patch.createdBy.Some? && patch.createdBy.value.appId.Some? {
      var s := patch.createdBy.value.appId.value;
      assert CastObjectId(s) == CastObjectId(CastObjectId(s).value.hex);
    }
  }

  /** Every stored `documentNum` is upper case, and upper-casing it again changes nothing. */
  lemma DocumentNumUpper(raw: RawDocument, loadedAt: Instant)
    requires Validate(raw, loadedAt).Ok?
    ensures raw.documentNum.Some? ==> Validate(raw, loadedAt).value.documentNum == Some(Text.ToUpper(raw.documentNum.value))
    ensures raw.documentNum.None? ==> Validate(raw, loadedAt).value.documentNum.None?
    ensures forall n :: Validate(raw, loadedAt).value.documentNum == Some(n) ==> Text.ToUpper(n) == n
  {
    forall n | Validate(raw, loadedAt).value.documentNum == Some(n) ensures Text.ToUpper(n) == n {
      Text.ToUpperFixesUpper(n);
    }
  }

  /**
   * Two documents created without timestamps, whatever else they hold, get the
   * same `createdAt` and `updatedAt`: the instant the module was loaded.
   */
  lemma DefaultTimestampsShared(a: RawDocument, b: RawDocument, loadedAt: Instant)
    requires Acceptable(a) && Acceptable(b)
    requires a.createdAt.None? && b.createdAt.None? && a.updatedAt.None? && b.updatedAt.None?
    ensures Validate(a, loadedAt).value.createdAt == Validate(b, loadedAt).value.createdAt == loadedAt
    ensures Validate(a, loadedAt).value.updatedAt == Validate(b, loadedAt).value.updatedAt == loadedAt
  {
  }

  /** The number of signers is not checked against `signingMode`: any list of well-formed signers is accepted. */
  lemma SignerCountUnconstrained(raw: RawDocument, signers: seq<Signer>, loadedAt: Instant)
    requires Validate(raw, loadedAt).Ok?
    requires forall i :: 0 <= i < |signers| ==> SignerConforms(signers[i])
    ensures Validate(raw.(signer := Some(signers)), loadedAt).Ok?
    ensures Validate(raw.(signer := Some(signers)), loadedAt).value.signer == signers
  {
  }

  /** A signer's `govtId`, `signedAt` and `odr` are never checked; only its `status` is. */
  lemma SignerFreeFields(raw: RawDocument, i: nat, govtId: Option<string>, signedAt: Option<string>, odr: Option<int>, loadedAt: Instant)
    requires raw.signer.Some? && i < |raw.signer.value|
    ensures
      var s := raw.signer.value[i];
      var raw' := raw.(signer := Some(raw.signer.value[i := Signer(govtId, signedAt, s.status, odr)]));
      Validate(raw', loadedAt).Ok? == Validate(raw, loadedAt).Ok?
  {
    var s := raw.signer.value[i];
    var ss' := raw.signer.value[i := Signer(govtId, signedAt, s.status, odr)];
    assert forall j :: 0 <= j < |ss'| ==> SignerConforms(ss'[j]) == SignerConforms(raw.signer.value[j]);
  }

  /** A signer's `status` outside its enum is reported at that signer's index. */
  lemma SignerStatusChecked(raw: RawDocument, i: nat, loadedAt: Instant)
    requires raw.signer.Some? && i < |raw.signer.value|
    requires raw.signer.value[i].status.Some? && raw.signer.value[i].status.value !in SignerStatusValues
    ensures Validate(raw, loadedAt).Err?
    ensures FieldError(Element("signer", i, "status"), NotInEnum) in Validate(raw, loadedAt).error
  {
    assert FieldError(Element("signer", i, "status"), NotInEnum) in SignerErrors(raw.signer.value, 0);
  }

  /** The placement paths are optional and unchecked, whether `visualize` is `visible` or `invisible`. */
  lemma PlacementOptional(raw: RawDocument, page: Option<int>, xy: Option<seq<int>>, w: Option<int>, h: Option<int>, reason: Option<string>, loadedAt: Instant)
    ensures
      var raw' := raw.(visualizePageNumber := page, originXY := xy, width := w, height := h, reason := reason);
      Validate(raw', loadedAt).Ok? == Validate(raw, loadedAt).Ok?
  {
  }

  /** `signedPdfFile` is independent of `statuses`: it may be set or absent whatever the status. */
  lemma SignedPdfFileIndependent(raw: RawDocument, file: Option<string>, status: string, loadedAt: Instant)
    requires Validate(raw, loadedAt).Ok?
    requires status in StatusValues
    ensures Validate(raw.(signedPdfFile := file, statuses := Some(status)), loadedAt).Ok?
    ensures Validate(raw.(signedPdfFile := file, statuses := Some(status)), loadedAt).value.signedPdfFile == file
  {
  }
}
