/** The gallery helpers of src/lib/googleStorage.ts: turning a bucket listing
    into gallery records, the mock fallback list, the upload path and record,
    and the URL helpers. The network call, the clock and encodeURIComponent
    are parameters. */
module GoogleStorage {
  import opened Wrappers
  import opened Seqs
  import opened Text

  /** A gallery record; uploadedAt is the upload instant in milliseconds. */
  datatype GalleryImage = GalleryImage(
    id: string, url: string, title: Option<string>, category: Option<string>,
    barberId: Option<string>, isFeatured: bool, uploadedAt: int, contentType: Option<string>)

  /** One object of the bucket listing. */
  datatype StorageObject = StorageObject(
    name: string, contentType: Option<string>, timeCreated: Option<int>, etag: Option<string>)

  /** How the listing request ended: a non-2xx status, a body that does not
      parse, or a parsed listing (a missing `items` is the empty listing). */
  datatype BucketResponse = HttpFailure(status: int) | BadBody | Listing(items: seq<StorageObject>)

  /** What the environment supplies: the bucket name, encodeURIComponent,
      Date.now(), and the instant the mock list was built. */
  datatype Env = Env(bucket: string, encode: string -> string, now: nat, mockLoadedAt: int)

  const Categories: seq<string> :=
    ["all", "haircuts", "beard", "styling", "shave", "creative", "full-service", "premium"]

  /** getImageCategories. */
  function ImageCategories(): (r: seq<string>)
    ensures |r| == 8 && r[0] == "all"
    ensures forall i, j :: 0 <= i < j < |r| ==> r[i] != r[j]
  {
    Categories
  }

  /** generateGCSUrl, and the URL shape used for listings and uploads. */
  function GcsUrl(bucket: string, objectName: string): string {
    GcsPrefix + bucket + "/" + objectName
  }

  // ---- listing normalisation -----------------------------------------------

  /** An image or video object, not a folder marker, with an extension. */
  predicate IsMediaFile(o: StorageObject) {
    && o.contentType.Some?
    && (StartsWith(o.contentType.value, "image/") || StartsWith(o.contentType.value, "video/"))
    && !EndsWith(o.name, "/")
    && '.' in o.name
  }

  /** The folder names that map to a category of the same name. */
  predicate IsNamedFolder(folder: string) {
    folder == "beard" || folder == "styling" || folder == "shave" || folder == "creative"
    || folder == "premium" || folder == "haircuts"
  }

  /** The category a lower-cased first folder maps to: a named folder to
      itself, any other folder mentioning "service" to "full-service", and
      anything else to itself with each whitespace run as one '-'. */
  function FolderCategory(folder: string): (r: string)
    ensures IsNamedFolder(folder) ==> r == folder
    ensures !IsNamedFolder(folder) && Contains(folder, "service") ==> r == "full-service"
    ensures !IsNamedFolder(folder) && !Contains(folder, "service") ==> r == ReplaceRuns(folder, IsJsSpace, '-')
    ensures forall i :: 0 <= i < |r| ==> !IsJsSpace(r[i]) && (r[i] in folder || 'a' <= r[i] <= 'z' || r[i] == '-')
  {
    NotContains("premium", "service");
    NotContains("haircuts", "service");
    if folder == "beard" then "beard"
    else if folder == "styling" then "styling"
    else if folder == "shave" then "shave"
    else if folder == "creative" then "creative"
    else if Contains(folder, "service") then "full-service"
    else if folder == "premium" then "premium"
    else if folder == "haircuts" then "haircuts"
    else
      ReplaceRunsSeparators(folder, IsJsSpace, '-');
      ReplaceRunsChars(folder, IsJsSpace, '-');
      ReplaceRuns(folder, IsJsSpace, '-')
  }

  /** The category of an object: "haircuts" at the top level, otherwise the
      category of its first folder, lower-cased. */
  function CategoryOf(name: string): (r: string)
    ensures '/' !in name ==> r == "haircuts"
    ensures '/' in name ==> r == FolderCategory(ToLower(UpToFirst(name, '/')))
    ensures forall i :: 0 <= i < |r| ==> !IsJsSpace(r[i]) && !('A' <= r[i] <= 'Z')
  {
    if '/' !in name then "haircuts"
    else
      var folder := ToLower(UpToFirst(name, '/'));
      var r := FolderCategory(folder);
      assert forall i :: 0 <= i < |r| && r[i] in folder ==> !('A' <= r[i] <= 'Z');
      r
  }

  function DashToSpace(c: char): char {
    if c == '-' || c == '_' then ' ' else c
  }

  /** The stem a title is made from: the last path segment up to its first '.'. */
  function TitleStem(name: string): (r: string)
    ensures '/' !in r && '.' !in r
    ensures EndsWith(name, AfterLast(name, '/')) && StartsWith(AfterLast(name, '/'), r)
  {
    UpToFirst(AfterLast(name, '/'), '.')
  }

  /** The display title of an object: its file name up to the first '.',
      dashes and underscores as spaces, "Media" when that is empty, first
      letter upper-cased. */
  function TitleOf(name: string): (r: string)
    ensures TitleStem(name) == [] ==> r == "Media"
    ensures TitleStem(name) != [] ==>
      && |r| == |TitleStem(name)|
      && r[0] == UpperChar(DashToSpace(TitleStem(name)[0]))
      && forall i :: 1 <= i < |r| ==> r[i] == DashToSpace(TitleStem(name)[i])
    ensures r != []
    ensures forall i :: 0 <= i < |r| ==> r[i] !in "-_./"
    ensures !('a' <= r[0] <= 'z')
  {
    var part := if '/' in name then AfterLast(name, '/') else name;
    assert part == AfterLast(name, '/') by {
      var a := AfterLast(name, '/');
      if '/' !in name {
        AfterLastAbsent(name, '/');
      }
    }
    var stem := MapSeq(UpToFirst(part, '.'), DashToSpace);
    var t := if stem == "" then "Media" else stem;
    var r := Capitalize(t);
    assert forall i :: 1 <= i < |r| ==> r[i] == t[i];
    r
  }

  /** The record for the `index`-th media object of the listing. */
  function ToImage(o: StorageObject, index: nat, env: Env): GalleryImage {
    GalleryImage(
      OrElse(o.etag, "gcs-" + NatToString(env.now) + "-" + NatToString(index)),
      GcsUrl(env.bucket, env.encode(o.name)),
      Some(TitleOf(o.name)),
      Some(CategoryOf(o.name)),
      None,
      index < 4,
      o.timeCreated.GetOr(env.now),
      o.contentType)
  }

  /** A listed record carries the etag or a generated `gcs-` id, the public
      storage URL, the derived title and category, is featured among the
      first four, and is dated by the creation time or else now. */
  lemma ToImageFields(o: StorageObject, index: nat, env: Env)
    ensures o.etag.Some? && o.etag.value != "" ==> ToImage(o, index, env).id == o.etag.value
    ensures o.etag.None? || o.etag.value == "" ==> StartsWith(ToImage(o, index, env).id, "gcs-")
    ensures ToImage(o, index, env).url == GcsUrl(env.bucket, env.encode(o.name))
    ensures IsGcsUrl(ToImage(o, index, env).url)
    ensures ToImage(o, index, env).title == Some(TitleOf(o.name))
    ensures ToImage(o, index, env).category == Some(CategoryOf(o.name))
    ensures ToImage(o, index, env).barberId.None? && ToImage(o, index, env).contentType == o.contentType
    ensures ToImage(o, index, env).isFeatured <==> index < 4
    ensures o.timeCreated.Some? ==> ToImage(o, index, env).uploadedAt == o.timeCreated.value
    ensures o.timeCreated.None? ==> ToImage(o, index, env).uploadedAt == env.now
  {
    GcsUrlIsGcs(env.bucket, env.encode(o.name));
  }

  /** An object `folder/stem.ext` is titled from `stem` and filed under
      the category of its lower-cased folder. */
  lemma ListingNameParts(folder: string, stem: string, ext: string)
    requires '/' !in folder && '/' !in stem && '.' !in stem && '/' !in ext
    ensures TitleStem(folder + ['/'] + (stem + ['.'] + ext)) == stem
    ensures CategoryOf(folder + ['/'] + (stem + ['.'] + ext)) == FolderCategory(ToLower(folder))
  {
    var file := stem + ['.'] + ext;
    assert '/' !in file;
    AfterLastConcat(folder, '/', file);
    UpToFirstConcat(stem, '.', ext);
    UpToFirstConcat(folder, '/', file);
  }

  lemma ExampleNameParts()
    ensures TitleStem("beard/fade-1.jpg") == "fade-1"
    ensures CategoryOf("beard/fade-1.jpg") == FolderCategory(ToLower("beard"))
  {
    assert "beard/fade-1.jpg" == "beard" + ['/'] + ("fade-1" + ['.'] + "jpg");
    ListingNameParts("beard", "fade-1", "jpg");
  }

  lemma ExampleTitle(name: string)
    requires TitleStem(name) == "fade-1"
    ensures TitleOf(name) == "Fade 1"
  {
    var r := TitleOf(name);
    assert |r| == 6 && r[0] == 'F' && r[1] == 'a' && r[2] == 'd' && r[3] == 'e' && r[4] == ' ' && r[5] == '1';
  }

  /** A listing entry named `beard/fade-1.jpg` is titled "Fade 1". */
  lemma ListingTitleExample()
    ensures TitleOf("beard/fade-1.jpg") == "Fade 1"
  {
    ExampleNameParts();
    ExampleTitle("beard/fade-1.jpg");
  }

  /** Any file in the `beard` folder is filed under "beard". */
  lemma BeardFolderExample(file: string)
    requires '/' !in file
    ensures CategoryOf("beard" + ['/'] + file) == "beard"
  {
    UpToFirstConcat("beard", '/', file);
    ToLowerIdentity("beard");
    assert IsNamedFolder("beard");
  }

  /** The folder is lower-cased before the table is consulted: a file in
      `Beard/` is filed under "beard" as well. */
  lemma MixedCaseFolderExample(file: string)
    requires '/' !in file
    ensures CategoryOf("Beard" + ['/'] + file) == "beard"
  {
    UpToFirstConcat("Beard", '/', file);
    assert ToLower("Beard") == "beard";
    assert IsNamedFolder("beard");
  }

  /** A folder the gallery does not name, made of words separated by
      whitespace, becomes its own category with each whitespace run as one
      '-'. */
  lemma OtherFolderWords(a: string, run: string, b: string)
    requires forall i :: 0 <= i < |a| ==> !IsJsSpace(a[i])
    requires forall i :: 0 <= i < |b| ==> !IsJsSpace(b[i])
    requires run != [] && forall i :: 0 <= i < |run| ==> IsJsSpace(run[i])
    requires !IsNamedFolder(a + run + b) && !Contains(a + run + b, "service")
    ensures FolderCategory(a + run + b) == a + "-" + b
  {
    ReplaceRunsJoin(a, run, b, IsJsSpace, '-');
    ReplaceRunsIdentity(a, IsJsSpace, '-');
    ReplaceRunsIdentity(b, IsJsSpace, '-');
  }

  /** A folder mentioning "service" is filed under "full-service". */
  lemma ServiceFolderExample()
    ensures FolderCategory("barber service") == "full-service"
  {
    assert StartsWith("barber service"[7..], "service");
  }

  /** The mapping step, numbering the media objects from 0. */
  function ToImages(objects: seq<StorageObject>, env: Env): (r: seq<GalleryImage>)
    ensures |r| == |objects|
    ensures forall i :: 0 <= i < |r| ==> r[i] == ToImage(objects[i], i, env)
    ensures forall i :: 0 <= i < |r| ==> (r[i].isFeatured <==> i < 4)
  {
    seq(|objects|, i requires 0 <= i < |objects| => ToImage(objects[i], i, env))
  }

  predicate Featured(img: GalleryImage) { img.isFeatured }

  /** Exactly the first four media objects are featured. */
  lemma FeaturedAreFirstFour(objects: seq<StorageObject>, env: Env)
    ensures Filter(ToImages(objects, env), Featured) == Take(ToImages(objects, env), 4)
    ensures |Filter(ToImages(objects, env), Featured)| == if |objects| < 4 then |objects| else 4
  {
    FilterPrefix(ToImages(objects, env), 4, Featured);
  }

  /** Whether a category argument narrows the list ("" and "all" do not). */
  predicate Narrows(category: Option<string>) {
    category.Some? && category.value != "" && category.value != "all"
  }

  function InCategory(category: Option<string>): GalleryImage -> bool {
    (img: GalleryImage) => !Narrows(category) || img.category == category
  }

  predicate NewerFirst(a: GalleryImage, b: GalleryImage) { a.uploadedAt >= b.uploadedAt }

  /** A reordering of images of one category holds only that category. */
  lemma InSortedKept(kept: seq<GalleryImage>, r: seq<GalleryImage>, category: Option<string>)
    requires multiset(r) == multiset(kept)
    requires forall i :: 0 <= i < |kept| ==> InCategory(category)(kept[i])
    ensures forall img :: img in r ==> !Narrows(category) || img.category == category
  {
    forall img | img in r
      ensures !Narrows(category) || img.category == category
    {
      assert img in multiset(kept);
      var i :| 0 <= i < |kept| && kept[i] == img;
      assert InCategory(category)(kept[i]);
    }
  }

  /** The listing branch: media filter, mapping, category filter, newest first. */
  function FromListing(items: seq<StorageObject>, category: Option<string>, env: Env): (r: seq<GalleryImage>)
    ensures forall i :: 0 <= i < |r| - 1 ==> r[i].uploadedAt >= r[i + 1].uploadedAt
    ensures multiset(r) == multiset(Filter(ToImages(Filter(items, IsMediaFile), env), InCategory(category)))
    ensures forall img :: img in r ==> !Narrows(category) || img.category == category
  {
    var kept := Filter(ToImages(Filter(items, IsMediaFile), env), InCategory(category));
    var r := SortBy(kept, NewerFirst);
    InSortedKept(kept, r, category);
    r
  }

  // ---- mock fallback --------------------------------------------------------

  function Mock(id: string, photo: string, title: string, category: string, featured: bool, at: int)
    : (r: GalleryImage)
    ensures r.uploadedAt == at && r.category == Some(category)
  {
    GalleryImage(
      id, "https://images.pexels.com/photos/" + photo + "/pexels-photo-" + photo
        + ".jpeg?auto=compress&cs=tinysrgb&w=400",
      Some(title), Some(category), None, featured, at, None)
  }

  /** The `i`-th entry of mockGalleryImages, stamped with the instant the
      module loaded. */
  function MockEntry(i: nat, at: int): (r: GalleryImage)
    requires i < 12
    ensures r.uploadedAt == at && r.category.Some?
  {
    if i < 6 then MockEntryLow(i, at) else MockEntryHigh(i, at)
  }

  function MockEntryLow(i: nat, at: int): (r: GalleryImage)
    requires i < 6
    ensures r.uploadedAt == at && r.category.Some?
  {
    match i
    case 0 => Mock("1", "1319460", "Classic Scissor Cut", "haircuts", true, at)
    case 1 => Mock("2", "1212984", "Beard Grooming", "beard", false, at)
    case 2 => Mock("3", "1681010", "Modern Fade", "haircuts", true, at)
    case 3 => Mock("4", "1516680", "Buzz Cut", "haircuts", false, at)
    case 4 => Mock("5", "1043471", "Classic Style", "haircuts", false, at)
    case _ => Mock("6", "1040880", "Modern Styling", "styling", true, at)
  }

  function MockEntryHigh(i: nat, at: int): (r: GalleryImage)
    requires 6 <= i < 12
    ensures r.uploadedAt == at && r.category.Some?
  {
    match i
    case 6 => Mock("7", "1499327", "Full Service", "full-service", false, at)
    case 7 => Mock("8", "1484794", "Creative Cut", "creative", true, at)
    case 8 => Mock("9", "1570807", "Professional Styling", "styling", false, at)
    case 9 => Mock("10", "1805600", "Hot Towel Shave", "shave", true, at)
    case 10 => Mock("11", "2102415", "Signature Cut", "haircuts", false, at)
    case _ => Mock("12", "1758144", "Premium Service", "premium", true, at)
  }

  /** mockGalleryImages. */
  function MockGalleryImages(at: int): (r: seq<GalleryImage>)
    ensures |r| == 12
    ensures forall i :: 0 <= i < |r| ==> r[i].uploadedAt == at && r[i].category.Some?
  {
    seq(12, i requires 0 <= i < 12 => MockEntry(i, at))
  }

  /** The mock list narrowed to a category. */
  function MockFiltered(category: Option<string>, at: int): (r: seq<GalleryImage>)
    ensures forall img :: img in r <==> img in MockGalleryImages(at) && (!Narrows(category) || img.category == category)
    ensures !Narrows(category) ==> r == MockGalleryImages(at)
  {
    var m := MockGalleryImages(at);
    FilterAll(m, InCategory(category));
    Filter(m, InCategory(category))
  }

  /** fetchFromGCS: a failed request, an unreadable body or an empty listing
      falls back to the mock list. */
  function FetchFromGcs(category: Option<string>, response: BucketResponse, env: Env): (r: seq<GalleryImage>)
    ensures (response.Listing? && response.items != []) ==> r == FromListing(response.items, category, env)
    ensures !(response.Listing? && response.items != []) ==> r == MockFiltered(category, env.mockLoadedAt)
  {
    if response.Listing? && response.items != [] then FromListing(response.items, category, env)
    else MockFiltered(category, env.mockLoadedAt)
  }

  /** A category narrows the unfiltered result: whatever is fetched for a
      category is fetched without one too, and carries that category. */
  lemma CategoryNarrows(c: string, response: BucketResponse, env: Env)
    requires Narrows(Some(c))
    ensures forall img :: img in FetchFromGcs(Some(c), response, env) ==>
      img.category == Some(c) && img in FetchFromGcs(None, response, env)
  {
    if response.Listing? && response.items != [] {
      var all := ToImages(Filter(response.items, IsMediaFile), env);
      var some, none := FromListing(response.items, Some(c), env), FromListing(response.items, None, env);
      forall img | img in some
        ensures img in none
      {
        assert img in multiset(some);
        assert img in all;
        assert img in Filter(all, InCategory(None));
        assert img in multiset(none);
      }
    }
  }

  /** fetchGalleryImages: the mock list narrowed and sorted newest first. */
  function FetchGalleryImages(category: Option<string>, at: int): (r: seq<GalleryImage>)
    ensures multiset(r) == multiset(MockFiltered(category, at))
  {
    SortBy(MockFiltered(category, at), NewerFirst)
  }

  lemma NewerFirstTotal()
    ensures Total(NewerFirst)
  {
  }

  /** All mock entries share one instant, so the sort keeps their order. */
  lemma MockSortKeepsOrder(category: Option<string>, at: int)
    ensures FetchGalleryImages(category, at) == MockFiltered(category, at)
  {
    var m := MockFiltered(category, at);
    assert forall i :: 0 <= i < |m| ==> m[i] in MockGalleryImages(at);
    assert SortedBy(m, NewerFirst);
    NewerFirstTotal();
    SortBySorted(m, NewerFirst);
  }

  // ---- upload ---------------------------------------------------------------

  /** The fields of the upload form that uploadToGCS reads. */
  datatype UploadMetadata = UploadMetadata(
    title: Option<string>, category: Option<string>, barberId: Option<string>, isFeatured: Option<bool>)

  function SanitizeChar(c: char): (r: char)
    ensures r == c || r == '_'
    ensures IsAlnum(r) || r in "._-"
  {
    if IsAlnum(c) || c == '.' || c == '-' then c else '_'
  }

  /** The object name of an upload: category folder, timestamp, and the
      file name with every character outside [A-Za-z0-9.-] as '_'. */
  function UploadPath(category: Option<string>, timestamp: nat, fileName: string): (r: string)
    ensures StartsWith(r, OrElse(category, "haircuts") + "/")
  {
    OrElse(category, "haircuts") + "/" + NatToString(timestamp) + "-" + MapSeq(fileName, SanitizeChar)
  }

  /** The file part of an upload path is the timestamp and the sanitised
      name, and the folder is the category. */
  lemma UploadPathParts(category: Option<string>, timestamp: nat, fileName: string)
    requires '/' !in OrElse(category, "haircuts")
    ensures UpToFirst(UploadPath(category, timestamp, fileName), '/') == OrElse(category, "haircuts")
    ensures AfterLast(UploadPath(category, timestamp, fileName), '/')
         == NatToString(timestamp) + "-" + MapSeq(fileName, SanitizeChar)
  {
    var folder := OrElse(category, "haircuts");
    var file := NatToString(timestamp) + "-" + MapSeq(fileName, SanitizeChar);
    assert UploadPath(category, timestamp, fileName) == folder + ['/'] + file;
    UpToFirstConcat(folder, '/', file);
    assert '/' !in file by {
      forall i | 0 <= i < |file| ensures file[i] != '/' {
        if i < |NatToString(timestamp)| {
          assert IsDigit(file[i]);
        } else if i > |NatToString(timestamp)| {
          assert file[i] == SanitizeChar(fileName[i - |NatToString(timestamp)| - 1]);
        }
      }
    }
    AfterLastConcat(folder, '/', file);
  }

  /** `p` does not occur in `s` when no position of `s` starts with p's
      first two characters. */
  lemma NotContains(s: string, p: string)
    requires |p| >= 2
    requires forall i :: 0 <= i <= |s| - |p| ==> s[i] != p[0] || s[i + 1] != p[1]
    ensures !Contains(s, p)
  {
    forall i | 0 <= i <= |s| - |p|
      ensures !StartsWith(s[i..], p)
    {
      assert s[i..][0] == s[i] && s[i..][1] == s[i + 1];
    }
  }

  /** Each of the gallery's own categories is a plain lower-case name and
      its own folder category. */
  lemma FolderCategoryFixed(c: string)
    requires c in ImageCategories()[1..]
    ensures '/' !in c && forall i :: 0 <= i < |c| ==> !('A' <= c[i] <= 'Z')
    ensures FolderCategory(c) == c
  {
    if c == "full-service" {
      assert StartsWith(c[5..], "service");
    } else {
      assert IsNamedFolder(c);
    }
  }

  /** An upload path is listed under the category of its folder. */
  lemma UploadPathCategory(category: Option<string>, timestamp: nat, fileName: string)
    requires '/' !in OrElse(category, "haircuts")
    requires forall i :: 0 <= i < |OrElse(category, "haircuts")| ==> !('A' <= OrElse(category, "haircuts")[i] <= 'Z')
    ensures CategoryOf(UploadPath(category, timestamp, fileName)) == FolderCategory(OrElse(category, "haircuts"))
  {
    var folder := OrElse(category, "haircuts");
    UploadPathParts(category, timestamp, fileName);
    var path := UploadPath(category, timestamp, fileName);
    assert path[|folder|] == '/';
    ToLowerIdentity(folder);
  }

  /** A file uploaded under one of the gallery's categories is listed back
      under the same category. */
  lemma UploadCategoryRoundTrip(category: Option<string>, timestamp: nat, fileName: string)
    requires OrElse(category, "haircuts") in ImageCategories()[1..]
    ensures CategoryOf(UploadPath(category, timestamp, fileName)) == OrElse(category, "haircuts")
  {
    FolderCategoryFixed(OrElse(category, "haircuts"));
    UploadPathCategory(category, timestamp, fileName);
  }

  /** An uploaded image or video whose file name has an extension is
      listed back as a media file. */
  lemma UploadIsListed(category: Option<string>, timestamp: nat, fileName: string, o: StorageObject)
    requires o.name == UploadPath(category, timestamp, fileName)
    requires o.contentType.Some?
    requires StartsWith(o.contentType.value, "image/") || StartsWith(o.contentType.value, "video/")
    requires '.' in fileName
    ensures IsMediaFile(o)
  {
    var prefix := OrElse(category, "haircuts") + "/" + NatToString(timestamp) + "-";
    var file := MapSeq(fileName, SanitizeChar);
    assert o.name == prefix + file;
    var k :| 0 <= k < |fileName| && fileName[k] == '.';
    assert o.name[|prefix| + k] == file[k] == '.';
    assert o.name[|o.name| - 1] == file[|file| - 1] != '/';
    assert o.name[|o.name| - 1..] != "/";
  }

  /** The default title of an upload: the name up to its first '.', with
      every character other than a letter or digit as a space. */
  function DefaultTitle(fileName: string): (r: string)
    ensures |r| == |UpToFirst(fileName, '.')|
    ensures forall i :: 0 <= i < |r| ==> r[i] == (if IsAlnum(fileName[i]) then fileName[i] else ' ')
  {
    MapSeq(UpToFirst(fileName, '.'), AlnumOrSpace)
  }

  /** A letter or digit stays; any other character becomes a space. */
  function AlnumOrSpace(c: char): (r: char)
    ensures IsAlnum(r) || r == ' '
  {
    if IsAlnum(c) then c else ' '
  }

  /** uploadToGCS: the record of an upload started at `timestamp` and
      finished at `finishedAt`. */
  function UploadToGcs(fileName: string, metadata: UploadMetadata, bucket: string, timestamp: nat, finishedAt: int)
    : (r: GalleryImage)
    ensures r.id == NatToString(timestamp)
    ensures r.url == GcsUrl(bucket, UploadPath(metadata.category, timestamp, fileName))
    ensures r.category == Some(OrElse(metadata.category, "haircuts"))
    ensures r.title == Some(OrElse(metadata.title, DefaultTitle(fileName)))
    ensures r.isFeatured == (metadata.isFeatured == Some(true))
    ensures r.barberId == metadata.barberId && r.uploadedAt == finishedAt
  {
    GalleryImage(
      NatToString(timestamp),
      GcsUrl(bucket, UploadPath(metadata.category, timestamp, fileName)),
      Some(OrElse(metadata.title, DefaultTitle(fileName))),
      Some(OrElse(metadata.category, "haircuts")),
      metadata.barberId,
      metadata.isFeatured.GetOr(false),
      finishedAt,
      None)
  }

  // ---- URL helpers ----------------------------------------------------------

  /** isGCSUrl: the URL mentions either public storage host. */
  predicate IsGcsUrl(url: string)
    ensures StartsWith(url, GcsPrefix) ==> IsGcsUrl(url)
  {
    assert StartsWith(url, GcsPrefix) ==> StartsWith(url[8..], GcsHost) by {
      if StartsWith(url, GcsPrefix) {
        assert url[8..][..22] == url[..31][8..30] == GcsPrefix[8..30] == GcsHost;
      }
    }
    Contains(url, "storage.googleapis.com") || Contains(url, "storage.cloud.google.com")
  }

  const GcsHost := "storage.googleapis.com"
  const GcsPrefix := "https://" + GcsHost + "/"

  /** Every URL the gallery builds for a bucket object is recognised as a
      storage URL, so optimizeImageUrl hands it back unchanged. */
  lemma GcsUrlIsGcs(bucket: string, objectName: string)
    ensures IsGcsUrl(GcsUrl(bucket, objectName))
    ensures forall w: Option<int>, h: Option<int> ::
      OptimizeImageUrl(GcsUrl(bucket, objectName), w, h) == GcsUrl(bucket, objectName)
  {
    var url := GcsUrl(bucket, objectName);
    assert url[..|GcsPrefix|] == GcsPrefix;
  }

  /** A number argument is truthy when given and not 0. */
  predicate Truthy(n: Option<int>) { n.Some? && n.value != 0 }

  /** `key=<n>&` for a truthy size, nothing otherwise. */
  function SizeParam(key: string, n: Option<int>): (r: string)
    requires '?' !in key
    ensures '?' !in r
  {
    if Truthy(n) then
      var r := key + "=" + IntToString(n.value) + "&";
      assert forall i :: |key| < i < |r| - 1 ==> r[i] == IntToString(n.value)[i - |key| - 1];
      r
    else ""
  }

  /** The query string optimizeImageUrl writes: `w` when a width is given,
      then `h` when a height is given, then the fixed compression
      parameters, in the order they are set. */
  function SizeParams(width: Option<int>, height: Option<int>): (r: string)
    ensures StartsWith(r, SizeParam("w", width) + SizeParam("h", height))
    ensures EndsWith(r, "auto=compress&cs=tinysrgb")
    ensures |r| == |SizeParam("w", width)| + |SizeParam("h", height)| + |"auto=compress&cs=tinysrgb"|
    ensures '?' !in r
  {
    var w := SizeParam("w", width);
    var h := SizeParam("h", height);
    var r := w + h + "auto=compress&cs=tinysrgb";
    assert r[..|w + h|] == w + h;
    assert r[|r| - 25..] == "auto=compress&cs=tinysrgb";
    r
  }

  /** optimizeImageUrl: a pexels URL asked for a size has its query replaced
      by the size parameters; any other URL is returned as it is. */
  function OptimizeImageUrl(url: string, width: Option<int>, height: Option<int>): (r: string)
    ensures IsGcsUrl(url) || !Contains(url, "pexels.com") || !(Truthy(width) || Truthy(height)) ==> r == url
    ensures !IsGcsUrl(url) && Contains(url, "pexels.com") && (Truthy(width) || Truthy(height)) ==>
      r == UpToFirst(url, '?') + "?" + SizeParams(width, height)
    ensures StartsWith(r, UpToFirst(url, '?'))
  {
    if IsGcsUrl(url) then url
    else if Contains(url, "pexels.com") && (Truthy(width) || Truthy(height)) then
      UpToFirst(url, '?') + "?" + SizeParams(width, height)
    else url
  }

  lemma ExampleSizeParam()
    ensures SizeParam("w", Some(800)) == "w=800&"
    ensures SizeParam("w", Some(400)) == "w=400&"
    ensures SizeParam("h", Some(300)) == "h=300&"
  {
    assert NatToString(800) == "800" && NatToString(400) == "400" && NatToString(300) == "300";
  }

  /** A width alone is written as `w`, before the fixed parameters. */
  lemma WidthExample()
    ensures SizeParams(Some(800), None) == "w=800&auto=compress&cs=tinysrgb"
  {
    ExampleSizeParam();
    assert SizeParam("h", None) == [];
  }

  /** Both sizes are written width first. */
  lemma BothSizesExample()
    ensures SizeParams(Some(400), Some(300)) == "w=400&h=300&auto=compress&cs=tinysrgb"
  {
    ExampleSizeParam();
  }

  /** A zero size counts as not given. */
  lemma ZeroSizeExample()
    ensures SizeParams(Some(0), Some(0)) == "auto=compress&cs=tinysrgb"
  {
    assert SizeParam("w", Some(0)) == [] && SizeParam("h", Some(0)) == [];
  }

  /** Optimising an optimised URL again changes nothing. */
  lemma OptimizeIdempotent(url: string, width: Option<int>, height: Option<int>)
    ensures OptimizeImageUrl(OptimizeImageUrl(url, width, height), width, height)
         == OptimizeImageUrl(url, width, height)
  {
    var r := OptimizeImageUrl(url, width, height);
    if r != url {
      var base := UpToFirst(url, '?');
      assert r == base + ['?'] + SizeParams(width, height);
      UpToFirstConcat(base, '?', SizeParams(width, height));
    }
  }
}
