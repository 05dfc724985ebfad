/**
 * OfficeImageController: attaching an uploaded image to an office and
 * deleting one of an office's images behind three ordered guards.
 */
module OfficeImageController {
  import opened Domain

  /** The 'max:5000' rule: at most 5000 kilobytes of 1024 bytes. */
  const MaxKilobytes: nat := 5000

  /**
   * An uploaded request field: whether it is a file at all, the extension
   * guessed from its content, and its size in bytes.
   */
  datatype Upload = Upload(isFile: bool, extension: string, sizeBytes: nat)

  /** The rules 'file', 'max:5000' and 'mimes:jpg,png'. */
  predicate Acceptable(u: Upload) {
    u.isFile && (u.extension == "jpg" || u.extension == "png") && u.sizeBytes <= MaxKilobytes * 1024
  }

  /**
   * POST /offices/{office}/images. `canUpdate` is the token's
   * 'office.update' ability, `authorized` the outcome of the office policy,
   * `upload` the 'image' field if present and `path` the name file storage
   * picks for it.
   */
  function StoreImage(db: Db, officeId: OfficeId, canUpdate: bool, authorized: bool,
                      upload: Option<Upload>, path: Path): (r: Effect<Image>)
    requires Valid(db)
    ensures Valid(r.db)
    ensures r.result.Ok? <==>
      Find(db.offices, officeId).Some? && canUpdate && authorized && upload.Some? && Acceptable(upload.value)
    ensures Find(db.offices, officeId).None? ==> r.result == Err(NotFound)
    ensures Find(db.offices, officeId).Some? && (!canUpdate || !authorized) ==> r.result == Err(Forbidden)
    ensures (Find(db.offices, officeId).Some? && canUpdate && authorized && upload.Some? && !Acceptable(upload.value))
            ==> r.result == Err(Unprocessable("image", RuleFailed))
    // 'image' is not a required field: without a file, validation passes and storing fails.
    ensures (Find(db.offices, officeId).Some? && canUpdate && authorized && upload.None?)
            ==> r.result == Err(ServerError)
    ensures r.result.Err? ==> r.db == db
    ensures r.result.Ok? ==>
      var image := r.result.value;
      && Owns(officeId, image) && image.path == path
      && image.id !in db.images
      && r.db.images == db.images[image.id := image]
      && OfficeImages(r.db, officeId) == OfficeImages(db, officeId) + {image.id}
      && r.db.files == db.files + {path}
      && r.db.offices == db.offices && r.db.reservations == db.reservations
  {
    if Find(db.offices, officeId).None? then Effect(Err(NotFound), db)
    else if !canUpdate || !authorized then Effect(Err(Forbidden), db)
    else if upload.Some? && !Acceptable(upload.value) then Effect(Err(Unprocessable("image", RuleFailed)), db)
    // The field is not 'required': an absent file passes validation and
    // storing it dereferences null.
    else if upload.None? then Effect(Err(ServerError), db)
    else
      var image := Image(db.nextImageId, OfficeType, officeId, path);
      Effect(Ok(image), db.(images := db.images[image.id := image],
                            files := db.files + {path},
                            nextImageId := db.nextImageId + 1))
  }

  /**
   * DELETE /offices/{office}/images/{image}. `canDelete` is the token's
   * 'office.delete' ability, `authorized` the outcome of the office policy.
   */
  function DeleteImage(db: Db, officeId: OfficeId, imageId: ImageId, canDelete: bool, authorized: bool): (r: Effect<()>)
    requires Valid(db)
    ensures Valid(r.db)
    ensures Find(db.offices, officeId).None? || imageId !in db.images ==> r.result == Err(NotFound)
    ensures Find(db.offices, officeId).Some? && imageId in db.images && (!canDelete || !authorized) ==> r.result == Err(Forbidden)
    // The three guards, in source order, each with its own field error.
    ensures (Find(db.offices, officeId).Some? && imageId in db.images && canDelete && authorized
             && !Owns(officeId, db.images[imageId]))
            ==> r.result == Err(Unprocessable("image", CannotDeleteThisImage))
    ensures (Find(db.offices, officeId).Some? && imageId in db.images && canDelete && authorized
             && Owns(officeId, db.images[imageId]) && |OfficeImages(db, officeId)| == 1)
            ==> r.result == Err(Unprocessable("image", CannotDeleteOnlyImage))
    ensures (Find(db.offices, officeId).Some? && imageId in db.images && canDelete && authorized
             && Owns(officeId, db.images[imageId]) && |OfficeImages(db, officeId)| >= 2
             && db.offices[Find(db.offices, officeId).value].featuredImageId == Some(imageId))
            ==> r.result == Err(Unprocessable("image", CannotDeleteFeaturedImage))
    ensures r.result.Err? ==> r.db == db
    ensures r.result.Ok? <==>
      && Find(db.offices, officeId).Some? && imageId in db.images
      && canDelete && authorized
      && imageId in OfficeImages(db, officeId)
      && |OfficeImages(db, officeId)| >= 2
      && db.offices[Find(db.offices, officeId).value].featuredImageId != Some(imageId)
    ensures r.result.Ok? ==>
      && r.db.images.Keys == db.images.Keys - {imageId}
      && (forall k :: k in r.db.images ==> r.db.images[k] == db.images[k])
      && r.db.files == db.files - {db.images[imageId].path}
      && r.db.offices == db.offices && r.db.reservations == db.reservations
      && r.db.nextImageId == db.nextImageId && r.db.nextOfficeId == db.nextOfficeId
    // The office keeps at least one image and its featured image survives.
    ensures r.result.Ok? ==>
      && |OfficeImages(r.db, officeId)| >= 1
      && var office := db.offices[Find(db.offices, officeId).value];
         forall f :: office.featuredImageId == Some(f) && f in db.images ==> f in r.db.images
  {
    if Find(db.offices, officeId).None? || imageId !in db.images then Effect(Err(NotFound), db)
    else
      var office := db.offices[Find(db.offices, officeId).value];
      var image := db.images[imageId];
      if !canDelete || !authorized then Effect(Err(Forbidden), db)
      else if !Owns(officeId, image) then Effect(Err(Unprocessable("image", CannotDeleteThisImage)), db)
      else if |OfficeImages(db, officeId)| == 1 then Effect(Err(Unprocessable("image", CannotDeleteOnlyImage)), db)
      else if office.featuredImageId == Some(imageId) then Effect(Err(Unprocessable("image", CannotDeleteFeaturedImage)), db)
      else
        var db' := db.(files := db.files - {image.path}, images := db.images - {imageId});
        assert OfficeImages(db', officeId) == OfficeImages(db, officeId) - {imageId};
        Effect(Ok(()), db')
  }

  /** An image owned elsewhere is refused before the count and featured checks. */
  lemma ForeignImageRefused(db: Db, officeId: OfficeId, imageId: ImageId)
    requires Valid(db) && Find(db.offices, officeId).Some? && imageId in db.images
    requires !Owns(officeId, db.images[imageId])
    ensures DeleteImage(db, officeId, imageId, true, true) == Effect(Err(Unprocessable("image", CannotDeleteThisImage)), db)
  {
  }

  /**
   * The guards run in order: an office's sole image that is also its
   * featured image is refused as the only image.
   */
  lemma SoleFeaturedImageIsOnlyImage(db: Db, i: nat, imageId: ImageId)
    requires Valid(db) && i < |db.offices|
    requires OfficeImages(db, db.offices[i].id) == {imageId}
    requires db.offices[i].featuredImageId == Some(imageId)
    ensures DeleteImage(db, db.offices[i].id, imageId, true, true)
            == Effect(Err(Unprocessable("image", CannotDeleteOnlyImage)), db)
  {
  }

  /**
   * Every refusal by the guards is a 422 on the 'image' field carrying the
   * controller's own message text.
   */
  lemma DeleteRefusalMessages(db: Db, officeId: OfficeId, imageId: ImageId, canDelete: bool, authorized: bool)
    requires Valid(db)
    ensures
      var r := DeleteImage(db, officeId, imageId, canDelete, authorized);
      r.result.Err? && r.result.error.Unprocessable? ==>
        && Status(r.result.error) == 422
        && r.result.error.field == "image"
        && Message(r.result.error.reason) in
             {Some("Cannot delete this image."), Some("Cannot delete the only image."),
              Some("Cannot delete the featured image.")}
  {
  }

  /**
   * Of an office with two or more images, a non-featured one is deleted:
   * its row and its stored file go, and nothing else changes.
   */
  lemma {:induction false} DeletesSecondImage(db: Db, i: nat, keep: ImageId, imageId: ImageId)
    requires Valid(db) && i < |db.offices|
    requires keep != imageId && {keep, imageId} <= OfficeImages(db, db.offices[i].id)
    requires db.offices[i].featuredImageId != Some(imageId)
    ensures DeleteImage(db, db.offices[i].id, imageId, true, true)
            == Effect(Ok(()), db.(files := db.files - {db.images[imageId].path}, images := db.images - {imageId}))
  {
    FindRow(db.offices, i);
    var ids := OfficeImages(db, db.offices[i].id);
    assert |ids| >= 2 by {
      assert ids == (ids - {keep, imageId}) + {keep, imageId};
    }
  }

  /**
   * Storing an image into an office that already has one and then deleting
   * it gives back the store it started from, apart from the id counter.
   */
  lemma StoreThenDelete(db: Db, i: nat, upload: Upload, path: Path)
    requires Valid(db) && i < |db.offices| && Acceptable(upload) && path !in db.files
    requires |OfficeImages(db, db.offices[i].id)| >= 1
    requires db.offices[i].featuredImageId.Some? ==> db.offices[i].featuredImageId.value in db.images
    ensures
      var stored := StoreImage(db, db.offices[i].id, true, true, Some(upload), path);
      && stored.result.Ok?
      && DeleteImage(stored.db, db.offices[i].id, stored.result.value.id, true, true)
         == Effect(Ok(()), db.(nextImageId := db.nextImageId + 1))
  {
  }

  /** The controller action on the live database. */
  method Store(store: Database, officeId: OfficeId, canUpdate: bool, authorized: bool,
               upload: Option<Upload>, path: Path) returns (r: Result<Image>)
    requires Valid(store.State())
    modifies store
    ensures Valid(store.State())
    ensures Effect(r, store.State()) == StoreImage(old(store.State()), officeId, canUpdate, authorized, upload, path)
  {
    if Find(store.offices, officeId).None? {
      return Err(NotFound);
    }
    if !canUpdate {
      return Err(Forbidden);
    }
    if !authorized {
      return Err(Forbidden);
    }
    if upload.Some? && !Acceptable(upload.value) {
      return Err(Unprocessable("image", RuleFailed));
    }
    if upload.None? {
      return Err(ServerError);
    }
    store.files := store.files + {path};
    var image := Image(store.nextImageId, OfficeType, officeId, path);
    store.images := store.images[image.id := image];
    store.nextImageId := store.nextImageId + 1;
    r := Ok(image);
  }

  /** The controller action on the live database. */
  method Delete(store: Database, officeId: OfficeId, imageId: ImageId, canDelete: bool, authorized: bool)
    returns (r: Result<()>)
    requires Valid(store.State())
    modifies store
    ensures Valid(store.State())
    ensures Effect(r, store.State()) == DeleteImage(old(store.State()), officeId, imageId, canDelete, authorized)
  {
    var found := Find(store.offices, officeId);
    if found.None? || imageId !in store.images {
      return Err(NotFound);
    }
    var office := store.offices[found.value];
    var image := store.images[imageId];
    if !canDelete {
      return Err(Forbidden);
    }
    if !authorized {
      return Err(Forbidden);
    }
    if image.resourceType != OfficeType || image.resourceId != officeId {
      return Err(Unprocessable("image", CannotDeleteThisImage));
    }
    if |OfficeImages(store.State(), officeId)| == 1 {
      return Err(Unprocessable("image", CannotDeleteOnlyImage));
    }
    if office.featuredImageId == Some(imageId) {
      return Err(Unprocessable("image", CannotDeleteFeaturedImage));
    }
    store.files := store.files - {image.path};
    store.images := store.images - {imageId};
    r := Ok(());
  }
}
