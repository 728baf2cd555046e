/**
 * The hero image picker: a chosen file is accepted only if its MIME type is on the
 * allow-list and it is at most 5 MiB; an accepted file becomes the preview and is
 * handed to the parent, a rejected one clears the file input.
 */
module HeroImageUpload {
  import opened Wrappers

  /** The size limit in bytes: 5 MiB. */
  const MaxFileSize: nat := 5 * 1024 * 1024

  /** The accepted MIME types, compared exactly. */
  const AllowedFileTypes: seq<string> := ["image/jpg", "image/jpeg", "image/png", "image/webp", "image/gif"]

  /** The parts of a browser `File` the picker looks at. */
  datatype ImageFile = ImageFile(name: string, mimeType: string, size: nat)

  /** The outcome of `validateImage`, with the reason a file is refused. */
  datatype Verdict = Accepted | InvalidType | TooLarge

  /** `validateImage`: the type is checked first, then the size. */
  function ValidateImage(file: ImageFile): (v: Verdict)
    ensures v == Accepted <==> file.mimeType in AllowedFileTypes && file.size <= MaxFileSize
    ensures v == InvalidType <==> file.mimeType !in AllowedFileTypes
    ensures v == TooLarge <==> file.mimeType in AllowedFileTypes && file.size > MaxFileSize
  {
    if file.mimeType !in AllowedFileTypes then InvalidType
    else if file.size > MaxFileSize then TooLarge
    else Accepted
  }

  /** The limit is inclusive: exactly 5 MiB passes, one byte more is too large. */
  lemma SizeLimitBoundary(name: string, mimeType: string)
    requires mimeType in AllowedFileTypes
    ensures ValidateImage(ImageFile(name, mimeType, 5242880)) == Accepted
    ensures ValidateImage(ImageFile(name, mimeType, 5242881)) == TooLarge
  {
  }

  /** A type outside the list is reported as a type error whatever the size. */
  lemma TypeCheckedFirst(file: ImageFile, size: nat)
    requires file.mimeType !in AllowedFileTypes
    ensures ValidateImage(file.(size := size)) == InvalidType
  {
  }

  /** The match is exact: an upper-case spelling of an allowed type is refused. */
  lemma TypeMatchIsCaseSensitive(size: nat)
    ensures ValidateImage(ImageFile("a.png", "IMAGE/PNG", size)) == InvalidType
    ensures ValidateImage(ImageFile("a.png", "image/png", size)) != InvalidType
  {
    assert AllowedFileTypes[2] == "image/png";
  }

  /** The picker's state and what it has passed to its parent. */
  class ImagePicker {
    /** The object URL shown as preview, if any. */
    var imagePreview: Option<string>
    /** The file input's `value`. */
    var inputValue: string
    /** The files handed to `onImageSelect`, in call order. */
    var selected: seq<ImageFile>

    constructor ()
      ensures imagePreview == None && inputValue == "" && selected == []
    {
      imagePreview := None;
      inputValue := "";
      selected := [];
    }

    /**
     * `handleImageSelect` on a change event whose target holds `files` (`None` for a
     * null file list); `previewUrl` is the object URL the browser would create for
     * the first file. The result is the verdict on that file, `None` when there is none.
     */
    method HandleImageSelect(files: Option<seq<ImageFile>>, previewUrl: string) returns (verdict: Option<Verdict>)
      modifies this
      ensures files == None || files.value == [] ==>
        verdict == None && imagePreview == old(imagePreview) && inputValue == old(inputValue) && selected == old(selected)
      ensures files != None && files.value != [] ==> verdict == Some(ValidateImage(files.value[0]))
      ensures verdict == Some(Accepted) ==>
        imagePreview == Some(previewUrl) && selected == old(selected) + [files.value[0]] && inputValue == old(inputValue)
      ensures verdict.Some? && verdict != Some(Accepted) ==>
        imagePreview == old(imagePreview) && selected == old(selected) && inputValue == ""
    {
      if files == None || files.value == [] {
        return None;
      }
      var file := files.value[0];
      var v := ValidateImage(file);
      if v == Accepted {
        imagePreview := Some(previewUrl);
        selected := selected + [file];
      } else {
        inputValue := "";
      }
      verdict := Some(v);
    }

    /** `handleRemoveImage`: drops the preview; the parent is not told. */
    method HandleRemoveImage()
      modifies this
      ensures imagePreview == None
      ensures inputValue == old(inputValue) && selected == old(selected)
    {
      imagePreview := None;
    }
  }
}
