/** The upload route of the API package: the extension allow-list and the
    chunk-by-chunk size limit that run before the image is stored. */
module UploadRoute {

  import opened Common
  import opened Text
  import Api

  newtype byte = x: int | 0 <= x < 256

  const AllowedExtensions: set<string> := {"jpg", "jpeg", "png"}
  /** 10 MiB. */
  const MaxFileSize: nat := 10 * 1024 * 1024

  const InvalidFileType := HttpError(400, "Invalid file type. Only JPG, JPEG, and PNG files are allowed.")
  const FileTooLarge := HttpError(400, "File size exceeds 10MB limit.")

  /** `s.rsplit('.', 1)[1]`: the text after the last dot. */
  function AfterLastDot(s: string): (ext: string)
    requires '.' in s
    ensures |ext| < |s|
    ensures s[|s| - |ext| - 1] == '.'
    ensures s[|s| - |ext|..] == ext
    ensures '.' !in ext
  {
    var last := |s| - 1;
    if s[last] == '.' then ""
    else
      assert s == s[..last] + [s[last]];
      AfterLastDot(s[..last]) + [s[last]]
  }

  /** Any dot with no dot after it is the last dot. */
  lemma AfterLastDotAt(s: string, i: nat)
    requires i < |s| && s[i] == '.' && '.' !in s[i + 1..]
    ensures AfterLastDot(s) == s[i + 1..]
  {
  }

  /** `allowed_file`: the name has a dot and the lower-cased text after its last
      dot is an allowed extension. */
  predicate AllowedFile(filename: string)
  {
    '.' in filename && Lower(AfterLastDot(filename)) in AllowedExtensions
  }

  /** `allowed_file` holds exactly when some dot of the name has no dot after
      it and the lower-cased text after that dot is an allowed extension. */
  lemma AllowedFileMeaning(filename: string)
    ensures AllowedFile(filename) <==>
              exists i :: 0 <= i < |filename| && filename[i] == '.' && '.' !in filename[i + 1..]
                          && Lower(filename[i + 1..]) in AllowedExtensions
  {
    if AllowedFile(filename) {
      var ext := AfterLastDot(filename);
      var i := |filename| - |ext| - 1;
      assert filename[i + 1..] == ext;
    }
    if exists i :: 0 <= i < |filename| && filename[i] == '.' && '.' !in filename[i + 1..]
                   && Lower(filename[i + 1..]) in AllowedExtensions {
      var i :| 0 <= i < |filename| && filename[i] == '.' && '.' !in filename[i + 1..]
               && Lower(filename[i + 1..]) in AllowedExtensions;
      AfterLastDotAt(filename, i);
    }
  }

  /** A name ending in a dot and a dot-free extension, up to case, has that
      extension after its last dot. */
  lemma EndsWithExtension(name: string, ext: string)
    requires '.' !in ext
    requires EndsWith(Lower(name), "." + ext)
    ensures '.' in name && Lower(AfterLastDot(name)) == ext
  {
    var lowered := Lower(name);
    var i := |name| - |ext| - 1;
    assert lowered[i] == ("." + ext)[0] == '.';
    LowerCharDot(name[i]);
    assert '.' !in name[i + 1..] by {
      forall q | i + 1 <= q < |name|
        ensures name[q] != '.'
      {
        assert lowered[q] == ext[q - i - 1];
        LowerCharDot(name[q]);
      }
    }
    AfterLastDotAt(name, i);
    LowerSuffix(name, i + 1);
    assert lowered[i + 1..] == ("." + ext)[1..];
  }

  /** A name `allowed_file` accepts ends, up to case, in a dot and that extension. */
  lemma AllowedFileEndsWithExtension(name: string)
    requires AllowedFile(name)
    ensures EndsWith(Lower(name), "." + Lower(AfterLastDot(name)))
  {
    var ext := AfterLastDot(name);
    var i := |name| - |ext| - 1;
    LowerSuffix(name, i + 1);
    LowerCharDot(name[i]);
    assert Lower(name)[i..] == "." + Lower(ext);
  }

  /** The upload handler of the application entry point and `allowed_file` accept
      exactly the same file names. */
  lemma ExtensionChecksAgree(name: string)
    ensures Api.HasImageExtension(name) <==> AllowedFile(name)
  {
    if Api.HasImageExtension(name) {
      ImageExtensionIsAllowed(name);
    }
    if AllowedFile(name) {
      AllowedIsImageExtension(name);
    }
  }

  lemma ImageExtensionIsAllowed(name: string)
    requires Api.HasImageExtension(name)
    ensures AllowedFile(name)
  {
    var lowered := Lower(name);
    if EndsWith(lowered, ".png") {
      assert ".png" == "." + "png";
      EndsWithExtension(name, "png");
    } else if EndsWith(lowered, ".jpg") {
      assert ".jpg" == "." + "jpg";
      EndsWithExtension(name, "jpg");
    } else {
      assert ".jpeg" == "." + "jpeg";
      EndsWithExtension(name, "jpeg");
    }
  }

  lemma AllowedIsImageExtension(name: string)
    requires AllowedFile(name)
    ensures Api.HasImageExtension(name)
  {
    AllowedFileEndsWithExtension(name);
    var suffix := "." + Lower(AfterLastDot(name));
    DottedExtension(Lower(AfterLastDot(name)));
    assert EndsWith(Lower(name), suffix);
  }

  /** An allowed extension with its dot is one of the suffixes the application checks. */
  lemma DottedExtension(ext: string)
    requires ext in AllowedExtensions
    ensures "." + ext in [".png", ".jpg", ".jpeg"]
  {
    if ext == "png" {
      assert "." + ext == ".png";
    } else if ext == "jpg" {
      assert "." + ext == ".jpg";
    } else {
      assert "." + ext == ".jpeg";
    }
  }

  /** Only the last extension counts, in any case. */
  lemma LastExtensionDecides()
    ensures !AllowedFile("a.png.txt")
    ensures AllowedFile("a.txt.PNG")
  {
    AfterLastDotAt("a.png.txt", 5);
    AfterLastDotAt("a.txt.PNG", 5);
    var refused := Lower("a.png.txt"[6..]);
    assert refused[0] == 't';
    var accepted := Lower("a.txt.PNG"[6..]);
    assert accepted == "png" by {
      assert accepted[0] == 'p' && accepted[1] == 'n' && accepted[2] == 'g';
    }
  }

  /** A name without a dot is refused, even when it spells an extension. */
  lemma NameWithoutDotRefused()
    ensures !AllowedFile("png")
  {
    assert "png"[0] != '.' && "png"[1] != '.' && "png"[2] != '.';
  }

  /** The total number of bytes in a sequence of chunks. */
  function TotalSize(chunks: seq<seq<byte>>): nat
  {
    if chunks == [] then 0 else TotalSize(chunks[..|chunks| - 1]) + |chunks[|chunks| - 1]|
  }

  /** Reading more chunks never lowers the running total. */
  lemma {:induction false} TotalSizeMonotone(chunks: seq<seq<byte>>, i: nat, j: nat)
    requires i <= j <= |chunks|
    ensures TotalSize(chunks[..i]) <= TotalSize(chunks[..j])
  {
    if i < j {
      TotalSizeMonotone(chunks, i, j - 1);
      assert chunks[..j][..j - 1] == chunks[..j - 1];
    }
  }

  /** The validation part of `upload_image`: the type check, then the stream is
      read chunk by chunk, keeping a running total, and the upload is refused at
      the first chunk that takes the total past the limit. `read` is the number
      of chunks consumed and `fileSize` the running total when the loop stopped. */
  method ValidateUpload(filename: string, stream: seq<seq<byte>>)
    returns (r: Outcome, fileSize: nat, read: nat)
    ensures !AllowedFile(filename) ==> r == Fail(InvalidFileType) && read == 0 && fileSize == 0
    ensures AllowedFile(filename) ==> read <= |stream| && fileSize == TotalSize(stream[..read])
    ensures AllowedFile(filename) ==> (r == Pass <==> TotalSize(stream) <= MaxFileSize)
    ensures AllowedFile(filename) ==> r == Pass || r == Fail(FileTooLarge)
    ensures r == Pass ==> read == |stream|
    ensures r == Fail(FileTooLarge) ==>
              && 0 < read <= |stream| && fileSize > MaxFileSize
              && forall k :: 0 <= k < read ==> TotalSize(stream[..k]) <= MaxFileSize
  {
    if !AllowedFile(filename) {
      return Fail(InvalidFileType), 0, 0;
    }
    fileSize, read := 0, 0;
    while read < |stream|
      invariant read <= |stream|
      invariant fileSize == TotalSize(stream[..read])
      invariant forall k :: 0 <= k <= read ==> TotalSize(stream[..k]) <= MaxFileSize
    {
      assert stream[..read + 1][..read] == stream[..read];
      fileSize := fileSize + |stream[read]|;
      read := read + 1;
      if fileSize > MaxFileSize {
        TotalSizeMonotone(stream, read, |stream|);
        assert stream[..|stream|] == stream;
        return Fail(FileTooLarge), fileSize, read;
      }
    }
    assert stream[..read] == stream;
    r := Pass;
  }
}
