/** The useGallery hook of src/hooks/useGallery.ts: where the gallery list
    comes from, the admin-only upload and delete, and the local filters.
    The gallery_images metadata table is a field of the hook's class. */
module Gallery {
  import opened Wrappers
  import opened Seqs
  import opened Text
  import opened Auth
  import opened GoogleStorage

  /** A gallery_images row. */
  datatype MetadataRow = MetadataRow(
    id: string, gcsUrl: string, title: Option<string>, barberId: Option<string>,
    category: Option<string>, isFeatured: bool, uploadedAt: int)

  /** The mapping of a metadata row to a gallery record (gcs_url becomes url). */
  function RowImage(row: MetadataRow): (img: GalleryImage)
    ensures img.id == row.id && img.url == row.gcsUrl && img.category == row.category
    ensures img.isFeatured == row.isFeatured && img.barberId == row.barberId
  {
    GalleryImage(row.id, row.gcsUrl, row.title, row.category, row.barberId, row.isFeatured, row.uploadedAt, None)
  }

  function RowInCategory(category: Option<string>): MetadataRow -> bool {
    (row: MetadataRow) => !Narrows(category) || row.category == category
  }

  predicate RowNewerFirst(a: MetadataRow, b: MetadataRow) { a.uploadedAt >= b.uploadedAt }

  /** The metadata query: the rows of the category ("" and "all" select
      every row), newest first. */
  function MetadataQuery(rows: seq<MetadataRow>, category: Option<string>): (r: seq<MetadataRow>)
    ensures forall row :: row in r <==> row in rows && (!Narrows(category) || row.category == category)
    ensures multiset(r) == multiset(Filter(rows, RowInCategory(category)))
    ensures forall i :: 0 <= i < |r| - 1 ==> r[i].uploadedAt >= r[i + 1].uploadedAt
  {
    var kept := Filter(rows, RowInCategory(category));
    var r := SortBy(kept, RowNewerFirst);
    assert forall row :: row in r <==> row in multiset(kept);
    r
  }

  /** How the metadata query ended. */
  datatype QueryOutcome = Answered | ErrorReturned | Threw

  const LoadFailed := "Failed to load gallery images from Google Cloud Storage"

  /** The list loadImages settles on: the metadata rows when the query
      answered with some, else the bucket listing, and the mock list when
      the query threw. */
  function LoadedImages(
    rows: seq<MetadataRow>, category: Option<string>, outcome: QueryOutcome,
    response: BucketResponse, env: Env): (r: seq<GalleryImage>)
    ensures outcome.Answered? && MetadataQuery(rows, category) != [] ==>
      r == MapSeq(MetadataQuery(rows, category), RowImage)
    ensures (outcome.Answered? && MetadataQuery(rows, category) == []) || outcome.ErrorReturned? ==>
      r == FetchFromGcs(category, response, env)
    ensures outcome.Threw? ==> r == FetchGalleryImages(category, env.mockLoadedAt)
  {
    match outcome
    case Answered =>
      var found := MetadataQuery(rows, category);
      if found != [] then MapSeq(found, RowImage) else FetchFromGcs(category, response, env)
    case ErrorReturned => FetchFromGcs(category, response, env)
    case Threw => FetchGalleryImages(category, env.mockLoadedAt)
  }

  /** Whichever source loadImages uses, every image it shows belongs to the
      requested category. */
  lemma LoadedImagesInCategory(
    rows: seq<MetadataRow>, category: Option<string>, outcome: QueryOutcome,
    response: BucketResponse, env: Env)
    ensures forall img :: img in LoadedImages(rows, category, outcome, response, env) ==>
      !Narrows(category) || img.category == category
  {
    var r := LoadedImages(rows, category, outcome, response, env);
    forall img | img in r
      ensures !Narrows(category) || img.category == category
    {
      var found := MetadataQuery(rows, category);
      if outcome.Answered? && found != [] {
        var i :| 0 <= i < |r| && r[i] == img;
        assert found[i] in found;
      } else if outcome.Threw? {
        assert img in multiset(FetchGalleryImages(category, env.mockLoadedAt));
      } else if response.Listing? && response.items != [] {
        assert img in FromListing(response.items, category, env);
      }
    }
  }

  /** The backend step of uploadImage that goes wrong, if any. */
  datatype UploadFault = NoFault | StorageReturnsNull | InsertReturnsError | InsertThrows(message: string)

  /** The gallery_images row written for an uploaded record. */
  function UploadedRow(id: string, img: GalleryImage, insertedAt: int): (row: MetadataRow)
    ensures RowImage(row).url == img.url && row.category == img.category && row.title == img.title
  {
    MetadataRow(id, img.url, img.title, img.barberId, img.category, img.isFeatured, insertedAt)
  }

  function ByBarber(barberId: string): GalleryImage -> bool {
    (img: GalleryImage) => img.barberId == Some(barberId)
  }

  function NotId(id: string): GalleryImage -> bool {
    (img: GalleryImage) => img.id != id
  }

  function RowNotId(id: string): MetadataRow -> bool {
    (row: MetadataRow) => row.id != id
  }

  /** What the environment answers when the gallery reloads. */
  datatype Reload = Reload(outcome: QueryOutcome, response: BucketResponse, env: Env)

  class GalleryHook {
    const user: Option<string>
    const profile: Option<Profile>
    var metadata: seq<MetadataRow>
    var images: seq<GalleryImage>
    var loading: bool
    var error: Option<string>
    var selectedCategory: string
    var uploading: bool

    constructor (user: Option<string>, profile: Option<Profile>, metadata: seq<MetadataRow>)
      ensures this.user == user && this.profile == profile && this.metadata == metadata
      ensures images == [] && !loading && error == None && selectedCategory == "all" && !uploading
    {
      this.user := user;
      this.profile := profile;
      this.metadata := metadata;
      images := [];
      loading := false;
      error := None;
      selectedCategory := "all";
      uploading := false;
    }

    /** canUpload / canDelete: a signed-in user whose profile is an admin's. */
    predicate CanEdit()
      reads this
      ensures CanEdit() <==> user.Some? && profile.Some? && profile.value.role == Admin
    {
      IsAdmin(user, profile)
    }

    /** loadImages: the list from the first source that applies; the error
        is set only when the metadata query threw. */
    method LoadImages(category: Option<string>, reload: Reload)
      modifies this`images, this`loading, this`error
      ensures images == LoadedImages(metadata, category, reload.outcome, reload.response, reload.env)
      ensures !loading
      ensures error == if reload.outcome.Threw? then Some(LoadFailed) else None
    {
      loading := true;
      error := None;
      if reload.outcome.Threw? {
        error := Some(LoadFailed);
      }
      images := LoadedImages(metadata, category, reload.outcome, reload.response, reload.env);
      loading := false;
    }

    /** uploadImage: refused unless the user is an admin; a failed metadata
        insert still counts as success; a success reloads the selected
        category. */
    method UploadImage(
      fileName: string, meta: UploadMetadata, bucket: string, timestamp: nat, finishedAt: int,
      rowId: string, insertedAt: int, fault: UploadFault, reload: Reload) returns (ok: bool)
      modifies this`metadata, this`images, this`loading, this`error, this`uploading
      ensures !CanEdit() ==>
        !ok && error == Some("Only admins can upload images")
        && metadata == old(metadata) && images == old(images) && uploading == old(uploading)
        && loading == old(loading)
      ensures CanEdit() ==> !uploading
      ensures CanEdit() && (fault.StorageReturnsNull? || fault.InsertThrows?) ==>
        !ok && metadata == old(metadata) && images == old(images) && loading == old(loading)
        && error == Some(if fault.StorageReturnsNull? then "Failed to upload image"
                         else OrElse(Some(fault.message), "Failed to upload image"))
      ensures CanEdit() && (fault.NoFault? || fault.InsertReturnsError?) ==>
        ok
        && metadata == old(metadata) + (if fault.NoFault?
             then [UploadedRow(rowId, UploadToGcs(fileName, meta, bucket, timestamp, finishedAt), insertedAt)]
             else [])
        && images == LoadedImages(metadata, Some(selectedCategory), reload.outcome, reload.response, reload.env)
        && error == (if reload.outcome.Threw? then Some(LoadFailed) else None)
        && !loading
    {
      if !CanEdit() {
        error := Some("Only admins can upload images");
        return false;
      }
      uploading := true;
      error := None;
      if fault.StorageReturnsNull? {
        error := Some("Failed to upload image");
        uploading := false;
        return false;
      }
      var uploaded := UploadToGcs(fileName, meta, bucket, timestamp, finishedAt);
      if fault.InsertThrows? {
        error := Some(OrElse(Some(fault.message), "Failed to upload image"));
        uploading := false;
        return false;
      }
      SaveAndReload(if fault.NoFault? then [UploadedRow(rowId, uploaded, insertedAt)] else [], reload);
      return true;
    }

    /** The tail of a successful upload: the metadata insert (if it went
        through), the reload of the selected category, and the end of the
        upload. */
    method SaveAndReload(inserted: seq<MetadataRow>, reload: Reload)
      modifies this`metadata, this`images, this`loading, this`error, this`uploading
      ensures metadata == old(metadata) + inserted
      ensures images == LoadedImages(metadata, Some(selectedCategory), reload.outcome, reload.response, reload.env)
      ensures error == (if reload.outcome.Threw? then Some(LoadFailed) else None)
      ensures !loading && !uploading
    {
      metadata := metadata + inserted;
      uploading := false;
      LoadImages(Some(selectedCategory), reload);
    }

    /** deleteImage: refused unless the user is an admin; otherwise the image
        leaves the local list (and the metadata table, unless that delete
        fails) and the call reports success. */
    method DeleteImage(imageId: string, metadataDeleteFails: bool) returns (ok: bool)
      modifies this`metadata, this`images, this`error
      ensures !CanEdit() ==>
        !ok && error == Some("Only admins can delete images")
        && metadata == old(metadata) && images == old(images)
      ensures CanEdit() ==>
        ok && error == old(error)
        && images == Filter(old(images), NotId(imageId))
        && metadata == if metadataDeleteFails then old(metadata) else Filter(old(metadata), RowNotId(imageId))
    {
      if !CanEdit() {
        error := Some("Only admins can delete images");
        return false;
      }
      if !metadataDeleteFails {
        metadata := Filter(metadata, RowNotId(imageId));
      }
      images := Filter(images, NotId(imageId));
      return true;
    }

    /** filterByCategory: remember the category and reload with it. */
    method FilterByCategory(category: string, reload: Reload)
      modifies this`selectedCategory, this`images, this`loading, this`error
      ensures selectedCategory == category
      ensures images == LoadedImages(metadata, Some(category), reload.outcome, reload.response, reload.env)
      ensures !loading && error == if reload.outcome.Threw? then Some(LoadFailed) else None
    {
      selectedCategory := category;
      LoadImages(Some(category), reload);
    }

    /** getFeaturedImages. */
    function FeaturedImages(): (r: seq<GalleryImage>)
      reads this
      ensures forall img :: img in r <==> img in images && img.isFeatured
    {
      Filter(images, Featured)
    }

    /** getImagesByBarber. */
    function ImagesByBarber(barberId: string): (r: seq<GalleryImage>)
      reads this
      ensures forall img :: img in r <==> img in images && img.barberId == Some(barberId)
    {
      Filter(images, ByBarber(barberId))
    }
  }

  /** Deleting removes every image with the id and keeps the rest in order:
      deleting from a concatenation deletes from each part. */
  lemma DeleteKeepsOrder(front: seq<GalleryImage>, back: seq<GalleryImage>, imageId: string)
    ensures Filter(front + back, NotId(imageId)) == Filter(front, NotId(imageId)) + Filter(back, NotId(imageId))
    ensures forall img :: img in Filter(front + back, NotId(imageId)) <==> img in front + back && img.id != imageId
  {
    FilterConcat(front, back, NotId(imageId));
  }

  /** Deleting an id no image carries changes nothing. */
  lemma DeleteAbsentId(images: seq<GalleryImage>, imageId: string)
    requires forall i :: 0 <= i < |images| ==> images[i].id != imageId
    ensures Filter(images, NotId(imageId)) == images
  {
    FilterAll(images, NotId(imageId));
  }
}
