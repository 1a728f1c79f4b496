/** The file-upload question: adding dropped or picked files under slot and size limits, and removing one. */
module FileUploadQuestion {
  import opened Wrappers

  /** A file handed over by the browser (an element of a `FileList`). */
  datatype FileEntry = FileEntry(name: string, size: int, mimeType: string)

  /**
   * An entry of the question's value. `hasPreviewUrl` stands for the optional
   * object URL and `hasFile` for the optional original `File` object.
   */
  datatype UploadedFile = UploadedFile(name: string, size: int, mimeType: string, hasPreviewUrl: bool, hasFile: bool)

  const DefaultMaxFiles: int := 5
  const DefaultMaxSizeBytes: int := 10 * 1024 * 1024

  predicate IsImageType(mimeType: string)
  {
    |mimeType| >= 6 && mimeType[..6] == "image/"
  }

  /** The entry made for an accepted file: it keeps the file, and gets a preview URL when it is an image. */
  function Upload(f: FileEntry): (u: UploadedFile)
    ensures u.name == f.name && u.size == f.size && u.mimeType == f.mimeType
    ensures u.hasFile && (u.hasPreviewUrl <==> IsImageType(f.mimeType))
  {
    UploadedFile(f.name, f.size, f.mimeType, IsImageType(f.mimeType), true)
  }

  /**
   * How many incoming files the loop looks at: `Math.min(files.length, remainingSlots)`,
   * where a negative bound means no iteration at all.
   */
  function Examined(count: nat, currentLength: nat, maxFiles: int): (n: nat)
    ensures n <= count
    ensures currentLength + n <= maxFiles || n == 0
  {
    var remainingSlots := maxFiles - currentLength;
    if remainingSlots <= 0 then 0 else if count < remainingSlots then count else remainingSlots
  }

  /** The entries made for those of `files` within the size limit, in input order. */
  function Accepted(files: seq<FileEntry>, maxSizeBytes: int): (r: seq<UploadedFile>)
    ensures |r| <= |files|
    ensures forall u :: u in r ==> u.size <= maxSizeBytes && u.hasFile
  {
    if files == [] then []
    else
      var init := Accepted(files[..|files| - 1], maxSizeBytes);
      var f := files[|files| - 1];
      if f.size <= maxSizeBytes then init + [Upload(f)] else init
  }

  /** An accepted entry comes from an input file within the limit, and every such file is accepted. */
  lemma {:induction false} AcceptedExactly(files: seq<FileEntry>, maxSizeBytes: int)
    ensures forall u :: u in Accepted(files, maxSizeBytes) ==> exists f :: f in files && f.size <= maxSizeBytes && u == Upload(f)
    ensures forall f :: f in files && f.size <= maxSizeBytes ==> Upload(f) in Accepted(files, maxSizeBytes)
  {
    if files != [] {
      var init := files[..|files| - 1];
      AcceptedExactly(init, maxSizeBytes);
      assert files == init + [files[|files| - 1]];
    }
  }

  /** Accepting from a concatenation accepts from each part, in order. */
  lemma {:induction false} AcceptedAppend(a: seq<FileEntry>, b: seq<FileEntry>, maxSizeBytes: int)
    ensures Accepted(a + b, maxSizeBytes) == Accepted(a, maxSizeBytes) + Accepted(b, maxSizeBytes)
  {
    if b == [] {
      assert a + b == a;
    } else {
      var init := b[..|b| - 1];
      AcceptedAppend(a, init, maxSizeBytes);
      assert (a + b)[..|a + b| - 1] == a + init;
      assert (a + b)[|a + b| - 1] == b[|b| - 1];
    }
  }

  /** What `handleFiles` hands to `onChange`, or None when it does not call it. */
  function HandleFilesResult(value: seq<UploadedFile>, files: Option<seq<FileEntry>>, maxFiles: int, maxSizeBytes: int): Option<seq<UploadedFile>>
  {
    match files
    case None => None
    case Some(fs) =>
      var newFiles := Accepted(fs[..Examined(|fs|, |value|, maxFiles)], maxSizeBytes);
      if |newFiles| > 0 then Some(value + newFiles) else None
  }

  /**
   * `handleFiles`: walk the first `Examined` incoming files, keep those within the
   * size limit, and emit the old list followed by them if at least one was kept.
   */
  method HandleFiles(value: Option<seq<UploadedFile>>, files: Option<seq<FileEntry>>, maxFiles: Option<int>, maxSizeBytes: Option<int>)
    returns (emitted: Option<seq<UploadedFile>>)
    ensures emitted == HandleFilesResult(value.GetOr([]), files, maxFiles.GetOr(DefaultMaxFiles), maxSizeBytes.GetOr(DefaultMaxSizeBytes))
  {
    if files.None? {
      return None;
    }
    var current := value.GetOr([]);
    var limit := maxFiles.GetOr(DefaultMaxFiles);
    var maxSize := maxSizeBytes.GetOr(DefaultMaxSizeBytes);
    var fs := files.value;
    var newFiles: seq<UploadedFile> := [];
    var bound := Examined(|fs|, |current|, limit);
    var i := 0;
    while i < bound
      invariant 0 <= i <= bound
      invariant newFiles == Accepted(fs[..i], maxSize)
    {
      var file := fs[i];
      assert fs[..i + 1][..i] == fs[..i];
      if file.size <= maxSize {
        newFiles := newFiles + [Upload(file)];
      }
      i := i + 1;
    }
    if |newFiles| > 0 {
      emitted := Some(current + newFiles);
    } else {
      emitted := None;
    }
  }

  /** The emitted list extends the old one, and everything added is within the size limit. */
  lemma HandleFilesExtends(value: seq<UploadedFile>, files: Option<seq<FileEntry>>, maxFiles: int, maxSizeBytes: int)
    ensures var r := HandleFilesResult(value, files, maxFiles, maxSizeBytes);
      r.Some? ==> files.Some? && |r.value| > |value| && r.value[..|value|] == value
    ensures var r := HandleFilesResult(value, files, maxFiles, maxSizeBytes);
      r.Some? ==> forall k :: |value| <= k < |r.value| ==> r.value[k].size <= maxSizeBytes
  {
    var r := HandleFilesResult(value, files, maxFiles, maxSizeBytes);
    if r.Some? {
      var fs := files.value;
      var added := Accepted(fs[..Examined(|fs|, |value|, maxFiles)], maxSizeBytes);
      assert r.value == value + added;
      forall k | |value| <= k < |r.value|
        ensures r.value[k].size <= maxSizeBytes
      {
        assert r.value[k] == added[k - |value|];
        assert added[k - |value|] in added;
      }
    }
  }

  /** A list within the slot limit stays within it. */
  lemma HandleFilesWithinLimit(value: seq<UploadedFile>, files: Option<seq<FileEntry>>, maxFiles: int, maxSizeBytes: int)
    requires |value| <= maxFiles
    ensures var r := HandleFilesResult(value, files, maxFiles, maxSizeBytes);
      r.Some? ==> |r.value| <= maxFiles
  {
  }

  /** A full list never grows, whatever is dropped on it. */
  lemma HandleFilesWhenFull(value: seq<UploadedFile>, files: Option<seq<FileEntry>>, maxFiles: int, maxSizeBytes: int)
    requires |value| >= maxFiles
    ensures HandleFilesResult(value, files, maxFiles, maxSizeBytes) == None
  {
    if files.Some? {
      assert files.value[..0] == [];
    }
  }

  /**
   * An oversized file still takes one of the examined positions: with one free
   * slot, a too-large first file hides an acceptable second one.
   */
  lemma OversizedFileUsesSlot(big: FileEntry, small: FileEntry, maxSizeBytes: int)
    requires big.size > maxSizeBytes && small.size <= maxSizeBytes
    ensures HandleFilesResult([], Some([big, small]), 1, maxSizeBytes) == None
    ensures HandleFilesResult([], Some([small, big]), 1, maxSizeBytes) == Some([Upload(small)])
  {
    assert [big, small][..1] == [big];
    assert [small, big][..1] == [small];
    assert Accepted([big], maxSizeBytes) == [] by {
      assert [big][..0] == [];
    }
    assert Accepted([small], maxSizeBytes) == [Upload(small)] by {
      assert [small][..0] == [];
    }
  }

  /** `value.filter((_, i) => i !== index)`. */
  function WithoutIndex(s: seq<UploadedFile>, index: int): (r: seq<UploadedFile>)
    ensures 0 <= index < |s| ==> r == s[..index] + s[index + 1..]
    ensures !(0 <= index < |s|) ==> r == s
  {
    if s == [] then []
    else if index == 0 then s[1..]
    else
      var rest := WithoutIndex(s[1..], index - 1);
      assert 0 <= index < |s| ==> s[1..][..index - 1] == s[1..index];
      [s[0]] + rest
  }

  /** `removeFile` emits the list without entry `index`, and revokes that entry's URL when it has both a URL and a file. */
  function RemoveFile(value: seq<UploadedFile>, index: int): (r: (seq<UploadedFile>, bool))
    ensures |r.0| == if 0 <= index < |value| then |value| - 1 else |value|
    ensures forall k :: 0 <= k < |r.0| ==> r.0[k] == if 0 <= index <= k then value[k + 1] else value[k]
    ensures r.1 <==> 0 <= index < |value| && value[index].hasPreviewUrl && value[index].hasFile
  {
    var revoke := 0 <= index < |value| && value[index].hasPreviewUrl && value[index].hasFile;
    (WithoutIndex(value, index), revoke)
  }

  /** Removing the entry just added restores the list from before the drop. */
  lemma RemoveUndoesAdd(value: seq<UploadedFile>, f: FileEntry, maxFiles: int, maxSizeBytes: int)
    requires |value| < maxFiles && f.size <= maxSizeBytes
    ensures HandleFilesResult(value, Some([f]), maxFiles, maxSizeBytes) == Some(value + [Upload(f)])
    ensures RemoveFile(value + [Upload(f)], |value|).0 == value
  {
    assert [f][..1] == [f];
    assert Accepted([f], maxSizeBytes) == [Upload(f)] by {
      assert [f][..0] == [];
    }
    assert (value + [Upload(f)])[..|value|] == value;
  }

  /** The drop zone's highlight state and the handlers that change it. */
  class DropZone {
    var isDragging: bool

    constructor ()
      ensures !isDragging
    {
      isDragging := false;
    }

    method DragOver()
      modifies this
      ensures isDragging
    {
      isDragging := true;
    }

    method DragLeave()
      modifies this
      ensures !isDragging
    {
      isDragging := false;
    }

    /** A drop clears the highlight and hands the dropped files to `handleFiles`. */
    method Drop(value: Option<seq<UploadedFile>>, files: Option<seq<FileEntry>>, maxFiles: Option<int>, maxSizeBytes: Option<int>)
      returns (emitted: Option<seq<UploadedFile>>)
      modifies this
      ensures !isDragging
      ensures emitted == HandleFilesResult(value.GetOr([]), files, maxFiles.GetOr(DefaultMaxFiles), maxSizeBytes.GetOr(DefaultMaxSizeBytes))
    {
      isDragging := false;
      emitted := HandleFiles(value, files, maxFiles, maxSizeBytes);
    }
  }
}
