/**
 * The avatar document: the three required string fields, the two timestamps that
 * default to the clock, the validation that `save` runs against the schema, and the
 * `toJSON` transform that strips the internal keys.
 */
module AvatarSchema {
  import opened Wrappers

  /** A field value of a document, or of the plain object it is serialised to. */
  datatype Value = Str(s: string) | Date(t: int) | Int(n: int) | ObjectId(oid: nat)

  /** A plain object: what `toObject`/`toJSON` produce and what the transform edits. */
  type JsonObject = map<string, Value>

  /** A saved document. `oid` is `_id`, `version` is `__v`. */
  datatype AvatarDoc = AvatarDoc(
    oid: nat,
    version: nat,
    accountId: string,
    imageUrl: string,
    thumbnailUrl: string,
    createdAt: int,
    updatedAt: int)

  /** A document that has been constructed but not yet saved: its string paths may be unset. */
  datatype Draft = Draft(
    oid: nat,
    accountId: Option<string>,
    imageUrl: Option<string>,
    thumbnailUrl: Option<string>,
    createdAt: int,
    updatedAt: int)

  /** The paths that failed the `required` validator, in schema order. */
  datatype ValidationError = ValidationError(paths: seq<string>)

  /** The paths declared `required: true`, in declaration order. */
  const RequiredPaths: seq<string> := ["accountId", "imageUrl", "thumbnailUrl"]

  /** The keys the `toJSON` transform deletes. */
  const InternalKeys: set<string> := {"id", "__v", "_id"}

  /** The five keys of the serialised record. */
  const PublicKeys: set<string> := {"accountId", "imageUrl", "thumbnailUrl", "createdAt", "updatedAt"}

  /**
   * The `required` validator of a String path: the value must be set and,
   * as for every required string, must not be the empty string.
   */
  predicate Required(v: Option<string>)
  {
    v.Some? && v.value != ""
  }

  /** A saved document satisfies every `required` path. */
  predicate Saveable(d: AvatarDoc)
  {
    Required(Some(d.accountId)) && Required(Some(d.imageUrl)) && Required(Some(d.thumbnailUrl))
  }

  /**
   * `new Avatar()` at clock reading `now`: a fresh ObjectId, the string paths unset,
   * and both timestamps taken from their `Date.now` default.
   */
  function NewDraft(oid: nat, now: int): Draft
  {
    Draft(oid, None, None, None, now, now)
  }

  /** The value of a required path of a draft. */
  function FieldOf(d: Draft, path: string): Option<string>
    requires path in RequiredPaths
  {
    if path == "accountId" then d.accountId
    else if path == "imageUrl" then d.imageUrl
    else d.thumbnailUrl
  }

  function MissingPaths(d: Draft): seq<string>
  {
    (if Required(d.accountId) then [] else ["accountId"]) +
    (if Required(d.imageUrl) then [] else ["imageUrl"]) +
    (if Required(d.thumbnailUrl) then [] else ["thumbnailUrl"])
  }

  /**
   * The validation `save` runs before the first write: it rejects the draft, naming
   * every failing path, unless all three required paths hold; on success the stored
   * document carries the draft's values and revision 0.
   */
  function Validate(d: Draft): (r: Result<AvatarDoc, ValidationError>)
    ensures r.Success? <==> Required(d.accountId) && Required(d.imageUrl) && Required(d.thumbnailUrl)
    ensures r.Success? ==> Saveable(r.value) && r.value.oid == d.oid && r.value.version == 0
    ensures r.Success? ==> r.value.accountId == d.accountId.value && r.value.imageUrl == d.imageUrl.value
                           && r.value.thumbnailUrl == d.thumbnailUrl.value
    ensures r.Success? ==> r.value.createdAt == d.createdAt && r.value.updatedAt == d.updatedAt
    ensures r.Failure? ==> r.error.paths != []
    ensures r.Failure? ==>
      forall p :: p in r.error.paths <==> p in RequiredPaths && !Required(FieldOf(d, p))
  {
    var missing := MissingPaths(d);
    if missing == [] then
      Success(AvatarDoc(d.oid, 0, d.accountId.value, d.imageUrl.value, d.thumbnailUrl.value,
                        d.createdAt, d.updatedAt))
    else
      Failure(ValidationError(missing))
  }

  /** A document constructed without its string paths cannot be saved; all three are reported. */
  lemma UnsetDraftRejected(oid: nat, now: int)
    ensures Validate(NewDraft(oid, now)) == Failure(ValidationError(RequiredPaths))
  {
    var d := NewDraft(oid, now);
    assert MissingPaths(d) == ["accountId"] + ["imageUrl"] + ["thumbnailUrl"];
    assert ["accountId"] + ["imageUrl"] + ["thumbnailUrl"] == RequiredPaths;
    assert Validate(d) == Failure(ValidationError(MissingPaths(d)));
  }

  /**
   * A freshly constructed document with all three paths set is saved exactly when none of
   * them is empty, and then both timestamps are the construction-time clock reading.
   */
  lemma SaveNewDraft(oid: nat, now: int, accountId: string, imageUrl: string, thumbnailUrl: string)
    ensures var r := Validate(NewDraft(oid, now).(accountId := Some(accountId),
                                                  imageUrl := Some(imageUrl),
                                                  thumbnailUrl := Some(thumbnailUrl)));
            && (r.Success? <==> accountId != "" && imageUrl != "" && thumbnailUrl != "")
            && (r.Success? ==> r.value == AvatarDoc(oid, 0, accountId, imageUrl, thumbnailUrl, now, now))
  {
  }

  /** One lower-case hexadecimal digit. */
  function HexDigit(n: nat): char
    requires n < 16
  {
    if n < 10 then '0' + n as char else 'a' + (n - 10) as char
  }

  /** The last `width` hexadecimal digits of `n`, most significant first. */
  function Hex(n: nat, width: nat): (s: string)
    ensures |s| == width
    decreases width
  {
    if width == 0 then "" else Hex(n / 16, width - 1) + [HexDigit(n % 16)]
  }

  /**
   * The object handed to the `toJSON` transform: every path, `_id`, `__v`, and
   * (because of `virtuals: true`) the `id` virtual, the hexadecimal string of `_id`.
   */
  function ToObject(d: AvatarDoc): JsonObject
  {
    map[
      "_id" := ObjectId(d.oid),
      "accountId" := Str(d.accountId),
      "imageUrl" := Str(d.imageUrl),
      "thumbnailUrl" := Str(d.thumbnailUrl),
      "createdAt" := Date(d.createdAt),
      "updatedAt" := Date(d.updatedAt),
      "__v" := Int(d.version),
      "id" := Str(Hex(d.oid, 24))
    ]
  }

  /** `delete ret[key]`: removing a key that is not there leaves the object as it was. */
  function DeleteKey(ret: JsonObject, key: string): JsonObject
  {
    ret - {key}
  }

  /**
   * The transform: exactly the internal keys are gone, and every other key keeps its value.
   */
  function Transform(ret: JsonObject): (r: JsonObject)
    ensures r.Keys == ret.Keys - InternalKeys
    ensures forall k :: k in r ==> r[k] == ret[k]
  {
    DeleteKey(DeleteKey(DeleteKey(ret, "id"), "__v"), "_id")
  }

  /** Applying the transform to an already transformed object changes nothing. */
  lemma TransformIdempotent(ret: JsonObject)
    ensures Transform(Transform(ret)) == Transform(ret)
  {
  }

  /** The literal keys of a document are pairwise different strings. */
  lemma KeysDistinct()
    ensures "id" !in PublicKeys && "__v" !in PublicKeys && "_id" !in PublicKeys
  {
    assert "id"[0] == 'i' && "__v"[0] == '_' && "_id"[0] == '_';
    assert "accountId"[0] == 'a' && "imageUrl"[0] == 'i' && "thumbnailUrl"[0] == 't';
    assert "createdAt"[0] == 'c' && "updatedAt"[0] == 'u';
    assert |"id"| == 2 && |"imageUrl"| == 8;
  }

  /** The record as the API promises it: the five public fields with their stored values. */
  function PublicObject(d: AvatarDoc): JsonObject
  {
    map[
      "accountId" := Str(d.accountId),
      "imageUrl" := Str(d.imageUrl),
      "thumbnailUrl" := Str(d.thumbnailUrl),
      "createdAt" := Date(d.createdAt),
      "updatedAt" := Date(d.updatedAt)
    ]
  }

  /**
   * `doc.toJSON()`: no internal key survives, and what is left is exactly the five
   * public fields with unchanged values.
   */
  function ToJSON(d: AvatarDoc): (r: JsonObject)
    ensures r.Keys == PublicKeys && r.Keys !! InternalKeys
    ensures r == PublicObject(d)
  {
    var r := Transform(ToObject(d));
    KeysDistinct();
    assert r.Keys == PublicKeys;
    r
  }

  /** The projection is invariant under a second application of the transform. */
  lemma ToJsonStable(d: AvatarDoc)
    ensures Transform(ToJSON(d)) == ToJSON(d)
  {
  }

  /**
   * The projection forgets exactly `_id` and `__v`: two documents serialise alike
   * exactly when their five public fields agree.
   */
  lemma ToJsonDeterminesPublicFields(d1: AvatarDoc, d2: AvatarDoc)
    ensures ToJSON(d1) == ToJSON(d2) <==>
      d1.(oid := 0, version := 0) == d2.(oid := 0, version := 0)
  {
  }
}
