/** The upload dialog of src/components/gallery/ImageUpload.tsx: file
    validation, the title it derives from the file name, and the submit and
    close handlers. */
module ImageUpload {
  import opened Wrappers
  import opened Seqs
  import opened Text
  import opened GoogleStorage

  /** The selected file as the browser describes it; size is in bytes. */
  datatype FileInfo = FileInfo(name: string, mimeType: string, size: nat)

  /** The dialog's metadata fields. */
  datatype FormMetadata = FormMetadata(title: string, category: string, isFeatured: bool)

  const EmptyMetadata := FormMetadata("", "haircuts", false)
  const MaxSize := 10 * 1024 * 1024

  const NotAnImage := "Please select an image file"
  const TooLarge := "File size must be less than 10MB"

  /** The category options: the gallery categories without "all". */
  function CategoryOptions(): (r: seq<string>)
    ensures r == ImageCategories()[1..]
    ensures "all" !in r
  {
    var cats := ImageCategories();
    assert cats == [cats[0]] + cats[1..];
    assert forall i :: 0 <= i < |cats[1..]| ==> cats[1..][i] != "all" by {
      forall i | 0 <= i < |cats[1..]| ensures cats[1..][i] != "all" {
        assert cats[1..][i] == cats[i + 1] != cats[0];
      }
    }
    FilterConcat([cats[0]], cats[1..], c => c != "all");
    FilterAll(cats[1..], c => c != "all");
    Filter(cats, c => c != "all")
  }

  /** The first validation message for a file, if any: type before size. */
  function FileError(f: FileInfo): (r: Option<string>)
    ensures !StartsWith(f.mimeType, "image/") ==> r == Some(NotAnImage)
    ensures StartsWith(f.mimeType, "image/") && f.size > MaxSize ==> r == Some(TooLarge)
    ensures r.None? <==> StartsWith(f.mimeType, "image/") && f.size <= 10485760
  {
    if !StartsWith(f.mimeType, "image/") then Some(NotAnImage)
    else if f.size > MaxSize then Some(TooLarge)
    else None
  }

  /** The name's stem with every non-alphanumeric as a space (the default
      title of an upload) and runs of spaces collapsed to one. */
  function CollapsedStem(name: string): (r: string)
    ensures forall i :: 0 <= i < |r| ==> IsAlnum(r[i]) || r[i] == ' '
    ensures NoAdjacent(r, IsJsSpace)
  {
    var spaced := DefaultTitle(name);
    ReplaceRunsChars(spaced, IsJsSpace, ' ');
    ReplaceRunsSeparators(spaced, IsJsSpace, ' ');
    ReplaceRuns(spaced, IsJsSpace, ' ')
  }

  /** The title suggested for a file: its name up to the first '.', with
      every character other than a letter or digit as a space, runs of
      spaces collapsed, and trimmed. */
  function SuggestedTitle(name: string): (r: string)
    ensures forall i :: 0 <= i < |r| ==> IsAlnum(r[i]) || r[i] == ' '
    ensures r == [] || (r[0] != ' ' && r[|r| - 1] != ' ')
    ensures forall i :: 0 <= i < |r| - 1 ==> !(r[i] == ' ' && r[i + 1] == ' ')
  {
    Trim(CollapsedStem(name), IsJsSpace)
  }

  /** Mapping non-alphanumerics to spaces keeps the letters and digits. */
  lemma {:induction false} SpacedKeepsAlnum(s: string)
    ensures Filter(MapSeq(s, AlnumOrSpace), IsAlnum) == Filter(s, IsAlnum)
    decreases |s|
  {
    if s != [] {
      SpacedKeepsAlnum(s[1..]);
      var m := MapSeq(s, AlnumOrSpace);
      assert m[1..] == MapSeq(s[1..], AlnumOrSpace);
      assert IsAlnum(m[0]) == IsAlnum(s[0]);
    }
  }

  /** On strings of letters, digits and spaces, what a space-run replacement
      keeps is exactly the letters and digits. */
  lemma KeepsIsAlnum(s: string)
    requires forall i :: 0 <= i < |s| ==> IsAlnum(s[i]) || s[i] == ' '
    ensures Filter(s, Keeps(IsJsSpace, ' ')) == Filter(s, IsAlnum)
  {
    forall i | 0 <= i < |s|
      ensures Keeps(IsJsSpace, ' ')(s[i]) == IsAlnum(s[i])
    {
      if IsAlnum(s[i]) {
        assert !IsJsSpace(s[i]);
      }
    }
    FilterCongruent(s, Keeps(IsJsSpace, ' '), IsAlnum);
  }

  /** The collapsed stem keeps the stem's letters and digits. */
  lemma CollapsedKeepsAlnum(name: string)
    ensures Filter(CollapsedStem(name), IsAlnum) == Filter(UpToFirst(name, '.'), IsAlnum)
  {
    var spaced := DefaultTitle(name);
    ReplaceRunsKeeps(spaced, IsJsSpace, ' ');
    KeepsIsAlnum(spaced);
    KeepsIsAlnum(CollapsedStem(name));
    SpacedKeepsAlnum(UpToFirst(name, '.'));
  }

  /** The suggested title holds exactly the letters and digits of the name's
      stem, in order. */
  lemma SuggestedTitleKeepsAlnum(name: string)
    ensures Filter(SuggestedTitle(name), IsAlnum) == Filter(UpToFirst(name, '.'), IsAlnum)
  {
    var collapsed := CollapsedStem(name);
    TrimKeeps(collapsed, IsJsSpace, ' ');
    KeepsIsAlnum(collapsed);
    KeepsIsAlnum(SuggestedTitle(name));
    CollapsedKeepsAlnum(name);
  }

  /** Two words separated by any run of other characters, before an
      extension, are suggested as the two words with one space between:
      "a-b.jpg" and "a__-b.png" both give "a b". */
  lemma SuggestedTitleTwoWords(a: string, seps: string, b: string, ext: string)
    requires a != [] && forall i :: 0 <= i < |a| ==> IsAlnum(a[i])
    requires b != [] && forall i :: 0 <= i < |b| ==> IsAlnum(b[i])
    requires seps != [] && forall i :: 0 <= i < |seps| ==> !IsAlnum(seps[i]) && seps[i] != '.'
    ensures SuggestedTitle(a + seps + b + ['.'] + ext) == a + " " + b
  {
    var spaces := MapSeq(seps, AlnumOrSpace);
    SpacedWords(a, seps, b, ext);
    ReplaceRunsJoin(a, spaces, b, IsJsSpace, ' ');
    ReplaceRunsIdentity(a, IsJsSpace, ' ');
    ReplaceRunsIdentity(b, IsJsSpace, ' ');
    var t := a + " " + b;
    assert t[0] == a[0] && t[|t| - 1] == b[|b| - 1];
    assert DropWhile(t, IsJsSpace) == t;
    assert DropWhileEnd(t, IsJsSpace) == t;
  }

  /** The default title of such a name is the two words around a run of
      spaces. */
  lemma SpacedWords(a: string, seps: string, b: string, ext: string)
    requires forall i :: 0 <= i < |a| ==> IsAlnum(a[i])
    requires forall i :: 0 <= i < |b| ==> IsAlnum(b[i])
    requires forall i :: 0 <= i < |seps| ==> !IsAlnum(seps[i]) && seps[i] != '.'
    ensures DefaultTitle(a + seps + b + ['.'] + ext) == a + MapSeq(seps, AlnumOrSpace) + b
    ensures forall i :: 0 <= i < |seps| ==> MapSeq(seps, AlnumOrSpace)[i] == ' '
  {
    var stem := a + seps + b;
    assert '.' !in stem by {
      forall i | 0 <= i < |stem| ensures stem[i] != '.' {
        if i < |a| {
          assert stem[i] == a[i];
        } else if i < |a| + |seps| {
          assert stem[i] == seps[i - |a|];
        } else {
          assert stem[i] == b[i - |a| - |seps|];
        }
      }
    }
    UpToFirstConcat(stem, '.', ext);
  }

  /** How uploadImage answered a submit. */
  datatype SubmitOutcome = Uploaded | NotUploaded | Threw(message: string)

  class UploadDialog {
    var file: Option<FileInfo>
    var preview: Option<string>
    var metadata: FormMetadata
    var uploadSuccess: bool
    var error: string

    constructor ()
      ensures file.None? && preview.None? && metadata == EmptyMetadata && !uploadSuccess && error == ""
    {
      file := None;
      preview := None;
      metadata := EmptyMetadata;
      uploadSuccess := false;
      error := "";
    }

    /** handleFileChange: a rejected file only sets the error; an accepted
        one is kept, clears the error, and fills an empty title. */
    method HandleFileChange(selected: Option<FileInfo>)
      modifies this`file, this`error, this`metadata
      ensures selected.None? ==> file == old(file) && error == old(error) && metadata == old(metadata)
      ensures selected.Some? && FileError(selected.value).Some? ==>
        error == FileError(selected.value).value && file == old(file) && metadata == old(metadata)
      ensures selected.Some? && FileError(selected.value).None? ==>
        file == selected && error == ""
        && metadata == if old(metadata).title == "" then old(metadata).(title := SuggestedTitle(selected.value.name))
                       else old(metadata)
    {
      if selected.None? {
        return;
      }
      var f := selected.value;
      var invalid := FileError(f);
      if invalid.Some? {
        error := invalid.value;
        return;
      }
      file := Some(f);
      error := "";
      if metadata.title == "" {
        metadata := metadata.(title := SuggestedTitle(f.name));
      }
    }

    /** The file reader's load event: the preview data URL arrives. */
    method PreviewLoaded(dataUrl: string)
      modifies this`preview
      ensures preview == Some(dataUrl)
    {
      preview := Some(dataUrl);
    }

    /** handleSubmit: without a file nothing happens; otherwise uploadImage is
        called with the file and the metadata (returned here), and its answer
        sets the success flag or the error. */
    method HandleSubmit(outcome: SubmitOutcome) returns (upload: Option<(FileInfo, FormMetadata)>)
      modifies this`uploadSuccess, this`error
      ensures old(file).None? ==> upload.None? && uploadSuccess == old(uploadSuccess) && error == old(error)
      ensures old(file).Some? ==> upload == Some((old(file).value, metadata))
      ensures old(file).Some? && outcome.Uploaded? ==> uploadSuccess && error == ""
      ensures old(file).Some? && outcome.NotUploaded? ==>
        uploadSuccess == old(uploadSuccess) && error == "Upload failed. Please try again."
      ensures old(file).Some? && outcome.Threw? ==>
        uploadSuccess == old(uploadSuccess) && error == OrElse(Some(outcome.message), "Upload failed")
    {
      if file.None? {
        return None;
      }
      error := "";
      upload := Some((file.value, metadata));
      match outcome
      case Uploaded => uploadSuccess := true;
      case NotUploaded => error := "Upload failed. Please try again.";
      case Threw(message) => error := OrElse(Some(message), "Upload failed");
    }

    /** handleClose: back to an empty dialog. */
    method HandleClose()
      modifies this
      ensures file.None? && preview.None? && metadata == EmptyMetadata && !uploadSuccess && error == ""
    {
      file := None;
      preview := None;
      metadata := EmptyMetadata;
      uploadSuccess := false;
      error := "";
    }
  }
}
