/**
 * The create-hero dialog: a five-field form edited field by field, a submit that
 * checks the required fields, resolves the role, optionally uploads the image under
 * a generated storage path, inserts the hero row, and resets the form on success.
 * The store's answers (role lookup, upload, insert) and the clock are parameters.
 */
module HeroCreateDialog {
  import opened Wrappers
  import opened JsString
  import opened HeroImageUpload

  /** The form's fields; all are text and start empty. */
  datatype FormData = FormData(name: string, role: string, tier: string, imageUrl: string, description: string)

  const EmptyForm: FormData := FormData("", "", "", "", "")

  datatype Field = NameField | RoleField | TierField | ImageUrlField | DescriptionField

  /** The field whose property name is `key`, if any. */
  function FieldOfName(key: string): (f: Option<Field>)
    ensures f == Some(NameField) <==> key == "name"
    ensures f == Some(RoleField) <==> key == "role"
    ensures f == Some(TierField) <==> key == "tier"
    ensures f == Some(ImageUrlField) <==> key == "imageUrl"
    ensures f == Some(DescriptionField) <==> key == "description"
  {
    if key == "name" then Some(NameField)
    else if key == "role" then Some(RoleField)
    else if key == "tier" then Some(TierField)
    else if key == "imageUrl" then Some(ImageUrlField)
    else if key == "description" then Some(DescriptionField)
    else None
  }

  function Get(form: FormData, f: Field): string {
    match f
    case NameField => form.name
    case RoleField => form.role
    case TierField => form.tier
    case ImageUrlField => form.imageUrl
    case DescriptionField => form.description
  }

  /** The form with field `f` set to `value`. */
  function Set(form: FormData, f: Field, value: string): (r: FormData)
    ensures forall g :: Get(r, g) == if g == f then value else Get(form, g)
  {
    match f
    case NameField => form.(name := value)
    case RoleField => form.(role := value)
    case TierField => form.(tier := value)
    case ImageUrlField => form.(imageUrl := value)
    case DescriptionField => form.(description := value)
  }

  /** Two forms that agree on every field are the same form. */
  lemma FormExtensionality(a: FormData, b: FormData)
    requires forall f :: Get(a, f) == Get(b, f)
    ensures a == b
  {
    assert Get(a, NameField) == Get(b, NameField);
    assert Get(a, RoleField) == Get(b, RoleField);
    assert Get(a, TierField) == Get(b, TierField);
    assert Get(a, ImageUrlField) == Get(b, ImageUrlField);
    assert Get(a, DescriptionField) == Get(b, DescriptionField);
  }

  /**
   * `handleInputChange`'s update for an event from the input called `key`: the field
   * of that name takes the value, every other field keeps its own.
   */
  function WithInput(form: FormData, key: string, value: string): (r: FormData)
    ensures forall f :: Get(r, f) == if FieldOfName(key) == Some(f) then value else Get(form, f)
  {
    match FieldOfName(key)
    case Some(f) => Set(form, f, value)
    case None => form
  }

  /** Typing into the same input twice keeps only the last value. */
  lemma WithInputOverwrites(form: FormData, key: string, v1: string, v2: string)
    ensures WithInput(WithInput(form, key, v1), key, v2) == WithInput(form, key, v2)
  {
    FormExtensionality(WithInput(WithInput(form, key, v1), key, v2), WithInput(form, key, v2));
  }

  /** Writing back a field's own value changes nothing. */
  lemma WithInputSameValue(form: FormData, f: Field, key: string)
    requires FieldOfName(key) == Some(f)
    ensures WithInput(form, key, Get(form, f)) == form
  {
    FormExtensionality(WithInput(form, key, Get(form, f)), form);
  }

  /** The required-field check of `handleSubmit`: name, role and tier are non-empty. */
  predicate RequiredFieldsPresent(form: FormData)
    ensures RequiredFieldsPresent(form) <==>
      Get(form, NameField) != "" && Get(form, RoleField) != "" && Get(form, TierField) != ""
    ensures RequiredFieldsPresent(form) ==> form != EmptyForm
  {
    form.name != "" && form.role != "" && form.tier != ""
  }

  /** The reset form passes no required-field check. */
  lemma EmptyFormIncomplete()
    ensures !RequiredFieldsPresent(EmptyForm)
    ensures forall f :: Get(EmptyForm, f) == ""
  {
  }

  /** `file.name.split(".").pop()`: the text after the last dot, or the whole name without a dot. */
  function FileExtension(fileName: string): (ext: string)
    ensures '.' !in ext
    ensures EndsWith(fileName, ext)
    ensures '.' !in fileName ==> ext == fileName
    ensures '.' in fileName ==> |ext| < |fileName| && fileName[|fileName| - |ext| - 1] == '.'
  {
    var parts := Split(fileName, '.');
    SplitLastIsTail(fileName, '.');
    assert parts[|parts| - 1] in parts;
    parts[|parts| - 1]
  }

  /** A dot-free suffix leaves no dot in the positions it covers. */
  lemma NoDotInSuffix(s: string, x: string)
    requires EndsWith(s, x) && '.' !in x
    ensures forall k :: |s| - |x| <= k < |s| ==> s[k] != '.'
  {
    forall k | |s| - |x| <= k < |s| ensures s[k] != '.' {
      assert s[k] == x[k - (|s| - |x|)];
    }
  }

  /** The extension is the only dot-free suffix that is the whole name or follows a dot. */
  lemma ExtensionUnique(fileName: string, e: string)
    requires '.' !in e && EndsWith(fileName, e)
    requires |e| == |fileName| || fileName[|fileName| - |e| - 1] == '.'
    ensures e == FileExtension(fileName)
  {
    var ext := FileExtension(fileName);
    NoDotInSuffix(fileName, e);
    NoDotInSuffix(fileName, ext);
    assert |e| == |ext|;
    assert e == fileName[|fileName| - |e|..];
  }

  /** A name ending in a dot and a dot-free text has that text as extension. */
  lemma ExtensionAfterDot(prefix: string, e: string)
    requires '.' !in e
    ensures FileExtension(prefix + "." + e) == e
  {
    var s := prefix + "." + e;
    assert s[|s| - |e|..] == e;
    assert s[|s| - |e| - 1] == '.';
    ExtensionUnique(s, e);
  }

  /** The fixed start of every storage path: the folder and the file-name stem. */
  const PathPrefix: string := "hero-images/hero-"

  /** The storage path `hero-images/hero-<timestamp>.<extension>` of an uploaded image. */
  function StoragePath(fileName: string, timestamp: nat): (path: string)
    ensures StartsWith(path, PathPrefix)
    ensures EndsWith(path, "." + FileExtension(fileName))
  {
    var stem := PathPrefix + NatToString(timestamp);
    var ext := FileExtension(fileName);
    assert (stem + "." + ext)[..|PathPrefix|] == PathPrefix;
    assert (stem + "." + ext)[|stem|..] == "." + ext;
    stem + "." + ext
  }

  /** Every path lies under the folder with the `hero-` stem and keeps the file's extension. */
  lemma StoragePathShape(fileName: string, timestamp: nat)
    ensures StartsWith(StoragePath(fileName, timestamp), PathPrefix)
    ensures FileExtension(StoragePath(fileName, timestamp)) == FileExtension(fileName)
  {
    var stem := PathPrefix + NatToString(timestamp);
    assert StoragePath(fileName, timestamp) == stem + "." + FileExtension(fileName);
    ExtensionAfterDot(stem, FileExtension(fileName));
  }

  /** Between the prefix and the "." before the extension, the path holds the timestamp's digits. */
  lemma StoragePathDigits(fileName: string, timestamp: nat)
    ensures var path := StoragePath(fileName, timestamp);
      var tail := "." + FileExtension(fileName);
      |PathPrefix| + |tail| <= |path| && path[|PathPrefix|..|path| - |tail|] == NatToString(timestamp)
  {
    var digits := NatToString(timestamp);
    var tail := "." + FileExtension(fileName);
    var path := PathPrefix + digits + tail;
    assert StoragePath(fileName, timestamp) == path;
    assert path[|PathPrefix|..|path| - |tail|] == digits;
  }

  /**
   * Two uploads of the same file name get the same path exactly when their timestamps
   * agree, so a later upload never reuses an earlier path (the upload does not overwrite).
   */
  lemma StoragePathDistinct(fileName: string, t1: nat, t2: nat)
    ensures StoragePath(fileName, t1) == StoragePath(fileName, t2) <==> t1 == t2
  {
    if StoragePath(fileName, t1) == StoragePath(fileName, t2) {
      StoragePathDigits(fileName, t1);
      StoragePathDigits(fileName, t2);
      NatToStringRoundTrip(t1);
      NatToStringRoundTrip(t2);
    }
  }

  /** A name without a dot becomes the whole extension, so the path ends in the whole name. */
  lemma StoragePathWithoutDot(fileName: string, timestamp: nat)
    requires '.' !in fileName
    ensures EndsWith(StoragePath(fileName, timestamp), "." + fileName)
  {
    var stem := PathPrefix + NatToString(timestamp);
    var tail := "." + fileName;
    var path := stem + tail;
    assert StoragePath(fileName, timestamp) == path;
    assert path[|path| - |tail|..] == tail;
  }

  /** What the store answers to the upload and the public-URL request. */
  datatype UploadResult = UploadFailed | Uploaded(publicUrl: Option<string>)

  /** The value `handleImageUpload` resolves to: the public URL, or null on failure or an empty URL. */
  function UploadedUrl(r: UploadResult): (url: Option<string>)
    ensures url.Some? <==> r.Uploaded? && r.publicUrl.Some? && r.publicUrl.value != ""
    ensures url.Some? ==> url == r.publicUrl
  {
    match r
    case UploadFailed => None
    case Uploaded(u) => if u.Some? && u.value != "" then u else None
  }

  /** The row inserted into the heroes table. */
  datatype HeroInsert = HeroInsert(name: string, roleId: int, tier: string, imageUrl: Option<string>, description: Option<string>)

  /** The insert row built from the form: an empty description is stored as null. */
  function InsertRow(form: FormData, roleId: int, imageUrl: Option<string>): (row: HeroInsert)
    ensures row.name == form.name && row.tier == form.tier
    ensures row.roleId == roleId && row.imageUrl == imageUrl
    ensures row.description == None <==> form.description == ""
  {
    HeroInsert(form.name, roleId, form.tier, imageUrl, if form.description == "" then None else Some(form.description))
  }

  /** Reading the stored description back with the empty default gives the form's text. */
  lemma InsertRowDescription(form: FormData, roleId: int, imageUrl: Option<string>)
    ensures InsertRow(form, roleId, imageUrl).description.GetOr("") == form.description
  {
  }

  /** How a submit ends. */
  datatype SubmitOutcome = MissingFields | RoleNotFound | InsertFailed | Created

  /** The dialog's state. */
  class CreateDialog {
    var formData: FormData
    var imageFile: Option<ImageFile>
    var isSubmitting: bool
    var isDialogOpen: bool
    /** How many times the parent's `onHeroCreated` has been called. */
    var heroCreatedCalls: nat

    constructor ()
      ensures formData == EmptyForm && imageFile == None
      ensures !isSubmitting && !isDialogOpen && heroCreatedCalls == 0
    {
      formData := EmptyForm;
      imageFile := None;
      isSubmitting := false;
      isDialogOpen := false;
      heroCreatedCalls := 0;
    }

    /** `handleInputChange` for the input called `key`. */
    method HandleInputChange(key: string, value: string)
      modifies this
      ensures formData == WithInput(old(formData), key, value)
      ensures imageFile == old(imageFile) && isSubmitting == old(isSubmitting)
      ensures isDialogOpen == old(isDialogOpen) && heroCreatedCalls == old(heroCreatedCalls)
    {
      formData := WithInput(formData, key, value);
    }

    /** The role select's `onValueChange`. */
    method SelectRole(value: string)
      modifies this
      ensures formData == Set(old(formData), RoleField, value)
      ensures imageFile == old(imageFile) && isSubmitting == old(isSubmitting)
      ensures isDialogOpen == old(isDialogOpen) && heroCreatedCalls == old(heroCreatedCalls)
    {
      formData := formData.(role := value);
    }

    /** The tier select's `onValueChange`. */
    method SelectTier(value: string)
      modifies this
      ensures formData == Set(old(formData), TierField, value)
      ensures imageFile == old(imageFile) && isSubmitting == old(isSubmitting)
      ensures isDialogOpen == old(isDialogOpen) && heroCreatedCalls == old(heroCreatedCalls)
    {
      formData := formData.(tier := value);
    }

    /** The image picker's `onImageSelect`; `objectUrl` is the URL the browser creates for the file. */
    method OnImageSelect(file: ImageFile, objectUrl: string)
      modifies this
      ensures imageFile == Some(file)
      ensures formData == Set(old(formData), ImageUrlField, objectUrl)
      ensures isSubmitting == old(isSubmitting)
      ensures isDialogOpen == old(isDialogOpen) && heroCreatedCalls == old(heroCreatedCalls)
    {
      imageFile := Some(file);
      formData := formData.(imageUrl := objectUrl);
    }

    /** `resetForm`: empty form, no file, dialog closed. */
    method ResetForm()
      modifies this
      ensures formData == EmptyForm && imageFile == None && !isDialogOpen
      ensures isSubmitting == old(isSubmitting) && heroCreatedCalls == old(heroCreatedCalls)
    {
      formData := EmptyForm;
      imageFile := None;
      isDialogOpen := false;
    }

    /**
     * `handleSubmit`. The store's answers are parameters: `roleLookup` is the id of the
     * role named in the form (`None` when the lookup fails), `upload` the answer to the
     * image upload, `insertSucceeds` whether the insert reports no error, and
     * `timestamp` the clock reading. Besides the outcome it returns the storage path
     * it uploaded to and the row it inserted, `None` where that step was not reached.
     */
    method HandleSubmit(roleLookup: Option<int>, timestamp: nat, upload: UploadResult, insertSucceeds: bool)
      returns (outcome: SubmitOutcome, uploadPath: Option<string>, row: Option<HeroInsert>)
      modifies this
      ensures !RequiredFieldsPresent(old(formData)) ==>
        outcome == MissingFields && isSubmitting == old(isSubmitting)
      ensures RequiredFieldsPresent(old(formData)) ==> !isSubmitting
      ensures outcome == MissingFields <==> !RequiredFieldsPresent(old(formData))
      ensures outcome == InsertFailed <==> RequiredFieldsPresent(old(formData)) && roleLookup != None && !insertSucceeds
      ensures outcome == RoleNotFound <==> RequiredFieldsPresent(old(formData)) && roleLookup == None
      ensures outcome == Created <==> RequiredFieldsPresent(old(formData)) && roleLookup != None && insertSucceeds
      ensures uploadPath ==
        if RequiredFieldsPresent(old(formData)) && roleLookup != None && old(imageFile) != None
        then Some(StoragePath(old(imageFile).value.name, timestamp)) else None
      ensures row ==
        if RequiredFieldsPresent(old(formData)) && roleLookup != None
        then Some(InsertRow(old(formData), roleLookup.value,
          if old(imageFile) != None then UploadedUrl(upload) else None))
        else None
      ensures outcome == Created ==>
        formData == EmptyForm && imageFile == None && !isDialogOpen && heroCreatedCalls == old(heroCreatedCalls) + 1
      ensures outcome != Created ==>
        formData == old(formData) && imageFile == old(imageFile) && isDialogOpen == old(isDialogOpen) &&
        heroCreatedCalls == old(heroCreatedCalls)
    {
      uploadPath := None;
      row := None;
      if !RequiredFieldsPresent(formData) {
        outcome := MissingFields;
        return;
      }
      isSubmitting := true;
      if roleLookup == None {
        outcome := RoleNotFound;
      } else {
        var imageUrl: Option<string> := None;
        if imageFile != None {
          uploadPath := Some(StoragePath(imageFile.value.name, timestamp));
          imageUrl := UploadedUrl(upload);
        }
        row := Some(InsertRow(formData, roleLookup.value, imageUrl));
        if !insertSucceeds {
          outcome := InsertFailed;
        } else {
          ResetForm();
          heroCreatedCalls := heroCreatedCalls + 1;
          outcome := Created;
        }
      }
      isSubmitting := false;
    }
  }
}
