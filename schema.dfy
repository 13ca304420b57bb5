/**
 * What the three record schemas share: the instants Mongoose stores for Date
 * paths, validation errors, ObjectId casting and the checks behind `required`
 * and `enum`.
 */
module Schema {
  import opened Wrappers

  /** A Date, as milliseconds since the epoch. */
  type Instant = int

  /** Where a validation error is reported: a top-level path, a path of an embedded record, or of an array element. */
  datatype Path =
    | Top(name: string)
    | Nested(parent: string, name: string)
    | Element(parent: string, index: nat, name: string)

  datatype ErrorKind = Required | NotInEnum | CastFailed

  datatype FieldError = FieldError(path: Path, kind: ErrorKind)

  /** A String path marked `required`: Mongoose rejects an absent value and the empty string alike. */
  predicate Filled(v: Option<string>) {
    v.Some? && v.value != ""
  }

  /** A path with an `enum` list: an absent value is not checked, a present one must be listed. */
  predicate Allowed(v: Option<string>, values: seq<string>) {
    v.None? || v.value in values
  }

  function CheckRequired(path: Path, v: Option<string>): (errs: seq<FieldError>)
    ensures errs == [] <==> Filled(v)
    ensures !Filled(v) ==> FieldError(path, Required) in errs
    ensures forall e :: e in errs ==> e == FieldError(path, Required)
  {
    if Filled(v) then [] else [FieldError(path, Required)]
  }

  function CheckEnum(path: Path, v: Option<string>, values: seq<string>): (errs: seq<FieldError>)
    ensures errs == [] <==> Allowed(v, values)
    ensures !Allowed(v, values) ==> FieldError(path, NotInEnum) in errs
    ensures forall e :: e in errs ==> e == FieldError(path, NotInEnum)
  {
    if Allowed(v, values) then [] else [FieldError(path, NotInEnum)]
  }

  /** The value a patch leaves at one path: the patch's when it sets the path, the current one otherwise. */
  function Pick<T>(patch: Option<T>, current: Option<T>): (r: Option<T>)
    ensures r.Some? <==> patch.Some? || current.Some?
    ensures patch.Some? ==> r == patch
    ensures patch.None? ==> r == current
  {
    if patch.Some? then patch else current
  }

  /** An ObjectId, kept as its 24 lower-case hexadecimal digits. */
  datatype ObjectId = ObjectId(hex: string)

  predicate IsHexDigit(c: char) {
    '0' <= c <= '9' || 'a' <= c <= 'f' || 'A' <= c <= 'F'
  }

  /** Text an ObjectId path accepts: exactly 24 hexadecimal digits, in either case. */
  predicate IsObjectIdText(s: string) {
    |s| == 24 && forall i :: 0 <= i < |s| ==> IsHexDigit(s[i])
  }

  predicate IsLowerHex(s: string) {
    forall i :: 0 <= i < |s| ==> '0' <= s[i] <= '9' || 'a' <= s[i] <= 'f'
  }

  /** A well-formed stored ObjectId. */
  predicate ValidObjectId(o: ObjectId) {
    IsObjectIdText(o.hex) && IsLowerHex(o.hex)
  }

  function LowerHexChar(c: char): char {
    if 'A' <= c <= 'F' then (c as int + 32) as char else c
  }

  /** Casting text to an ObjectId: 24 hexadecimal digits succeed, anything else is a cast error. */
  function CastObjectId(s: string): (r: Option<ObjectId>)
    ensures r.Some? <==> IsObjectIdText(s)
    ensures r.Some? ==> ValidObjectId(r.value)
    ensures r.Some? ==> forall i :: 0 <= i < |s| ==> r.value.hex[i] == LowerHexChar(s[i])
  {
    if IsObjectIdText(s) then Some(ObjectId(seq(|s|, i requires 0 <= i < |s| => LowerHexChar(s[i]))))
    else None
  }

  /** A stored ObjectId cast from its own text is itself. */
  lemma CastStoredObjectId(o: ObjectId)
    requires ValidObjectId(o)
    ensures CastObjectId(o.hex) == Some(o)
  {
    assert CastObjectId(o.hex).value.hex == o.hex;
  }

  /** An optional ObjectId path: absent, or text that casts. */
  predicate Castable(v: Option<string>) {
    v.None? || IsObjectIdText(v.value)
  }

  function CheckObjectId(path: Path, v: Option<string>): (errs: seq<FieldError>)
    ensures errs == [] <==> Castable(v)
    ensures !Castable(v) ==> FieldError(path, CastFailed) in errs
    ensures forall e :: e in errs ==> e == FieldError(path, CastFailed)
  {
    if Castable(v) then [] else [FieldError(path, CastFailed)]
  }

  /** The value stored for an optional ObjectId path that casts. */
  function CastOptional(v: Option<string>): (r: Option<ObjectId>)
    requires Castable(v)
    ensures r.Some? == v.Some?
    ensures r.Some? ==> ValidObjectId(r.value)
  {
    if v.None? then None else CastObjectId(v.value)
  }

  /** The text of an optional stored ObjectId. */
  function HexOf(o: Option<ObjectId>): Option<string> {
    if o.None? then None else Some(o.value.hex)
  }

  /** An optional stored ObjectId cast from its own text is itself. */
  lemma CastOptionalStored(o: Option<ObjectId>)
    requires o.Some? ==> ValidObjectId(o.value)
    ensures Castable(HexOf(o)) && CastOptional(HexOf(o)) == o
  {
    if o.Some? {
      CastStoredObjectId(o.value);
    }
  }
}
