/**
 * `AvatarService`: get, create, update and delete of avatar records keyed by `accountId`,
 * over the collection of `AvatarModel`. The clock is the `now` parameter of each operation;
 * the uploaded file is reduced to the two names the service reads.
 */
module Services {
  import opened Wrappers
  import opened AvatarSchema
  import opened AvatarModel

  /** The uploaded file, as far as the service uses it. */
  datatype File = File(filename: string, originalname: string)

  const AlreadyExistsMessage: string := "Avatar already exists"

  /** What `createAvatar` throws. */
  datatype ServiceError =
    | AvatarAlreadyExists                        // the duplicate check
    | ValidationFailed(error: ValidationError)   // rejected by `save`
  {
    /** The duplicate check throws an `Error` with a fixed message. */
    function Message(): (m: Option<string>)
      ensures AvatarAlreadyExists? <==> m == Some(AlreadyExistsMessage)
    {
      if AvatarAlreadyExists? then Some(AlreadyExistsMessage) else None
    }
  }

  const ImagePrefix: string := "https://example.com/image-"
  const ThumbnailPrefix: string := "https://example.com/thumbnail-"

  /** The rest of `s` after `prefix`, when `s` starts with it. */
  function StripPrefix(prefix: string, s: string): (r: Option<string>)
    ensures r.Some? <==> prefix <= s
    ensures r.Some? ==> prefix + r.value == s
  {
    if prefix <= s then Some(s[|prefix|..]) else None
  }

  /** The image URL built from a file name; the name can be read back from it. */
  function ImageUrl(name: string): (url: string)
    ensures url != ""
    ensures StripPrefix(ImagePrefix, url) == Some(name)
  {
    var url := ImagePrefix + name;
    assert url[|ImagePrefix|..] == name;
    url
  }

  /** Distinct file names give distinct image URLs. */
  lemma ImageUrlInjective(a: string, b: string)
    ensures ImageUrl(a) == ImageUrl(b) <==> a == b
  {
  }

  class AvatarService {
    /** The avatar collection, in natural order. */
    var store: seq<AvatarDoc>
    /** The next ObjectId to hand out: every stored `_id` is below it. */
    var nextOid: nat

    /** Everything stored went through `save`'s validation and has an ObjectId already handed out. */
    ghost predicate Valid()
      reads this
    {
      (forall i :: 0 <= i < |store| ==> Saveable(store[i])) &&
      (forall i :: 0 <= i < |store| ==> store[i].oid < nextOid)
    }

    constructor ()
      ensures Valid() && store == [] && nextOid == 0
    {
      store := [];
      nextOid := 0;
    }

    /** `https://example.com/thumbnail-` followed by the original name; nothing else of the file is read. */
    static function GenerateThumbnail(file: File): (url: string)
      ensures url != ""
      ensures StripPrefix(ThumbnailPrefix, url) == Some(file.originalname)
    {
      var url := ThumbnailPrefix + file.originalname;
      assert url[|ThumbnailPrefix|..] == file.originalname;
      url
    }

    /**
     * `getAvatar`: null exactly when no record has the account, otherwise the JSON
     * projection of the record `findOne` returns (the only one, when accounts are unique).
     */
    function GetAvatar(accountId: string): (r: Option<JsonObject>)
      reads this
      ensures r.None? <==> !HasAccount(store, accountId)
      ensures r.Some? ==>
        exists i: nat :: FirstMatch(store, accountId, i) && r.value == ToJSON(store[i])
      ensures UniqueAccounts(store) ==>
        forall i :: 0 <= i < |store| && store[i].accountId == accountId ==> r == Some(PublicObject(store[i]))
    {
      match FindFirst(store, accountId)
      case None => None
      case Some(i) =>
        assert UniqueAccounts(store) ==>
          forall k :: 0 <= k < |store| && store[k].accountId == accountId ==> k == i;
        Some(ToJSON(store[i]))
    }

    /**
     * `createAvatar`: a duplicate account is rejected with nothing changed; otherwise a
     * document is constructed at `now`, its paths are set (the image URL from `filename`),
     * and `save` either rejects it (an empty account id) or appends exactly that record.
     */
    method CreateAvatar(accountId: string, file: File, now: int) returns (r: Result<JsonObject, ServiceError>)
      requires Valid()
      modifies this
      ensures Valid()
      ensures HasAccount(old(store), accountId) ==>
        r == Failure(AvatarAlreadyExists) && store == old(store) && nextOid == old(nextOid)
      ensures !HasAccount(old(store), accountId) && accountId == "" ==>
        r == Failure(ValidationFailed(ValidationError(["accountId"]))) && store == old(store)
        && nextOid == old(nextOid) + 1
      ensures !HasAccount(old(store), accountId) && accountId != "" ==>
        var d := AvatarDoc(old(nextOid), 0, accountId, ImageUrl(file.filename), GenerateThumbnail(file), now, now);
        && store == old(store) + [d] && r == Success(ToJSON(d)) && nextOid == old(nextOid) + 1
        && (forall k :: 0 <= k < |old(store)| ==> old(store)[k].oid != d.oid)
      ensures UniqueAccounts(old(store)) ==> UniqueAccounts(store)
    {
      var existing := FindFirst(store, accountId);
      if existing.Some? {
        return Failure(AvatarAlreadyExists);
      }
      var avatar := NewDraft(nextOid, now);
      nextOid := nextOid + 1;
      avatar := avatar.(accountId := Some(accountId));
      avatar := avatar.(imageUrl := Some(ImageUrl(file.filename)));
      avatar := avatar.(thumbnailUrl := Some(GenerateThumbnail(file)));
      var saved := Validate(avatar);
      if saved.Failure? {
        assert saved.error.paths == ["accountId"] by {
          assert "accountId" in saved.error.paths;
          assert saved.error == ValidationError(MissingPaths(avatar));
        }
        return Failure(ValidationFailed(saved.error));
      }
      if UniqueAccounts(store) {
        AppendKeepsUnique(store, saved.value);
      }
      store := store + [saved.value];
      r := Success(ToJSON(saved.value));
    }

    /**
     * `updateAvatar`: null with nothing changed when no record has the account; otherwise
     * the record `findOne` returns gets the image URL from `originalname`, a new thumbnail URL
     * and `updatedAt = now`, keeps its account and `createdAt`, and no other record changes.
     */
    method UpdateAvatar(accountId: string, file: File, now: int) returns (r: Option<JsonObject>)
      requires Valid()
      modifies this
      ensures Valid() && nextOid == old(nextOid)
      ensures !HasAccount(old(store), accountId) ==> r == None && store == old(store)
      ensures HasAccount(old(store), accountId) ==>
        var i := FindFirst(old(store), accountId).value;
        var d := old(store)[i].(imageUrl := ImageUrl(file.originalname),
                                thumbnailUrl := GenerateThumbnail(file),
                                updatedAt := now);
        && store == old(store)[i := d] && r == Some(ToJSON(d))
        && d.accountId == accountId && d.createdAt == old(store)[i].createdAt
      ensures UniqueAccounts(old(store)) ==> UniqueAccounts(store)
    {
      var found := FindFirst(store, accountId);
      if found.None? {
        return None;
      }
      var i := found.value;
      var avatar := store[i];
      assert Saveable(avatar);
      avatar := avatar.(imageUrl := ImageUrl(file.originalname));
      avatar := avatar.(thumbnailUrl := GenerateThumbnail(file));
      avatar := avatar.(updatedAt := now);
      assert Saveable(avatar) by {
        assert avatar.accountId == store[i].accountId;
        assert avatar.imageUrl != "" && avatar.thumbnailUrl != "";
      }
      if UniqueAccounts(store) {
        ReplaceKeepsUnique(store, i, avatar);
      }
      ghost var before := store;
      store := store[i := avatar];
      forall k | 0 <= k < |store| ensures Saveable(store[k]) && store[k].oid < nextOid {
        if k != i { assert store[k] == before[k]; }
      }
      r := Some(ToJSON(avatar));
    }

    /** `deleteAvatar`: `deleteOne` on the account; an absent account is not an error. */
    method DeleteAvatar(accountId: string)
      requires Valid()
      modifies this
      ensures Valid() && nextOid == old(nextOid)
      ensures store == DeleteOne(old(store), accountId)
      ensures UniqueAccounts(old(store)) ==> UniqueAccounts(store) && !HasAccount(store, accountId)
    {
      if UniqueAccounts(store) {
        DeleteKeepsUnique(store, accountId);
        DeleteRemovesAccount(store, accountId);
      }
      store := DeleteOne(store, accountId);
    }
  }

  /** The thumbnail URL is a function of `originalname` alone, and distinct names give distinct URLs. */
  lemma ThumbnailDeterminedByOriginalName(f: File, g: File)
    ensures AvatarService.GenerateThumbnail(f) == AvatarService.GenerateThumbnail(g)
      <==> f.originalname == g.originalname
  {
  }

  /** No image URL is ever a thumbnail URL, so a record's two URLs always differ. */
  lemma ImageUrlIsNotThumbnail(name: string, f: File)
    ensures ImageUrl(name) != AvatarService.GenerateThumbnail(f)
  {
    assert ImageUrl(name)[20] == 'i';
    assert AvatarService.GenerateThumbnail(f)[20] == 't';
  }

  /**
   * Create names the image after `filename` and update after `originalname`: re-uploading
   * the same file changes the image URL exactly when the two names differ.
   */
  lemma CreateAndUpdateImageUrlsAgree(f: File)
    ensures ImageUrl(f.filename) == ImageUrl(f.originalname) <==> f.filename == f.originalname
  {
    ImageUrlInjective(f.filename, f.originalname);
  }

  /**
   * The lifecycle of one account: create, read back, a second create is rejected,
   * delete, and the account is gone.
   */
  method Lifecycle(file: File, now: int)
  {
    var service := new AvatarService();
    var created := service.CreateAvatar("u1", file, now);
    assert created.Success?;
    var got := service.GetAvatar("u1");
    assert service.store[0].accountId == "u1";
    assert got == Some(created.value);
    var again := service.CreateAvatar("u1", file, now + 1);
    assert again == Failure(AvatarAlreadyExists);
    service.DeleteAvatar("u1");
    assert service.GetAvatar("u1") == None;
  }
}
