/** Upload placeholders that live in a persisted draft (packages/core/drafts/draft-upload.ts). */
module DraftUploads {
  import opened Lists

  /** A server attachment row; `rest` stands for the columns nothing here looks at. */
  datatype Attachment = Attachment(id: string, filename: string, url: string, downloadUrl: string,
                                   sizeBytes: int, contentType: string, rest: string)

  /** Every status but `uploaded`; older builds may have stored others. */
  datatype Status = Uploading | Failed | Interrupted | Unknown(name: string)

  datatype Upload =
    | Pending(clientUploadId: string, filename: string, size: int, contentType: Option<string>,
              status: Status, error: Option<string>)
    | Uploaded(clientUploadId: string, filename: string, size: int, contentType: Option<string>,
               attachment: Attachment)

  /** An element of a stored array: a placeholder, an uploaded one whose attachment is damaged, a bare row, or neither. */
  datatype Raw = Shaped(upload: Upload) | Damaged(clientUploadId: string) | Bare(attachment: Attachment) | Junk

  function AttachmentToDraftUpload(a: Attachment): Upload {
    Uploaded(if a.id != "" then a.id else a.url, a.filename, a.sizeBytes,
             if a.contentType != "" then Some(a.contentType) else None, a.(downloadUrl := ""))
  }

  /** A draft outlives any signed URL: two rows make the same placeholder exactly if they differ in nothing else. */
  lemma {:induction false} WrapForgetsSignedUrl(a: Attachment, b: Attachment)
    ensures AttachmentToDraftUpload(a) == AttachmentToDraftUpload(b) <==> a.(downloadUrl := "") == b.(downloadUrl := "")
    ensures AttachmentToDraftUpload(a).attachment.downloadUrl == ""
    ensures AttachmentToDraftUpload(AttachmentToDraftUpload(a).attachment) == AttachmentToDraftUpload(a)
    ensures AttachmentToDraftUpload(a).clientUploadId == "" <==> a.id == "" && a.url == ""
    ensures AttachmentToDraftUpload(a).contentType != Some("")
  {
    var same := a.(downloadUrl := "") == b.(downloadUrl := "");
    assert same ==> a.id == b.id && a.url == b.url && a.filename == b.filename;
  }

  predicate IsUploading(u: Upload) {
    u.Pending? && u.status.Uploading?
  }

  /** What loading makes of one stored element. */
  function LoadedItem(item: Raw): Option<Upload> {
    match item
    case Shaped(u) => if IsUploading(u) then None else Some(u)
    case Damaged(_) => None
    case Bare(a) => Some(AttachmentToDraftUpload(a))
    case Junk => None
  }

  function Normalized(raw: seq<Raw>): seq<Upload> {
    if raw == [] then []
    else
      var n := |raw| - 1;
      Normalized(raw[..n]) + match LoadedItem(raw[n]) case Some(u) => [u] case None => []
  }

  method NormalizeStoredUploads(raw: seq<Raw>) returns (out: seq<Upload>)
    ensures out == Normalized(raw)
  {
    out := [];
    for i := 0 to |raw|
      invariant out == Normalized(raw[..i])
    {
      assert raw[..i + 1][..i] == raw[..i];
      match raw[i]
      case Shaped(u) =>
        if IsUploading(u) { continue; }
        out := out + [u];
      case Damaged(_) =>
      case Bare(a) => out := out + [AttachmentToDraftUpload(a)];
      case Junk =>
    }
    assert raw[..|raw|] == raw;
  }

  /** The completed attachment rows, in order. */
  method UploadedAttachments(uploads: seq<Upload>) returns (out: seq<Attachment>)
    ensures out == Rows(uploads)
  {
    out := [];
    for i := 0 to |uploads|
      invariant out == Rows(uploads[..i])
    {
      assert uploads[..i + 1][..i] == uploads[..i];
      if uploads[i].Uploaded? { out := out + [uploads[i].attachment]; }
    }
    assert uploads[..|uploads|] == uploads;
  }

  function Rows(uploads: seq<Upload>): seq<Attachment> {
    if uploads == [] then []
    else
      var n := |uploads| - 1;
      Rows(uploads[..n]) + if uploads[n].Uploaded? then [uploads[n].attachment] else []
  }

  /** The stored form of a list. */
  function Stored(uploads: seq<Upload>): seq<Raw> {
    seq(|uploads|, i requires 0 <= i < |uploads| => Shaped(uploads[i]))
  }

  /** A list without its uploads in flight. */
  function Settled(uploads: seq<Upload>): seq<Upload> {
    if uploads == [] then []
    else
      var n := |uploads| - 1;
      Settled(uploads[..n]) + if IsUploading(uploads[n]) then [] else [uploads[n]]
  }

  /** Loading what was stored drops the uploads in flight and nothing else. */
  lemma {:induction false} LoadStored(uploads: seq<Upload>)
    ensures Normalized(Stored(uploads)) == Settled(uploads)
    decreases |uploads|
  {
    if uploads != [] {
      var n := |uploads| - 1;
      assert Stored(uploads)[..n] == Stored(uploads[..n]);
      LoadStored(uploads[..n]);
    }
  }

  /** A loaded list holds no upload in flight, and storing and loading it again changes nothing. */
  lemma {:induction false} NormalizedIsCanonical(raw: seq<Raw>)
    ensures forall u :: u in Normalized(raw) ==> !IsUploading(u)
    ensures Settled(Normalized(raw)) == Normalized(raw)
    ensures Normalized(Stored(Normalized(raw))) == Normalized(raw)
  {
    NormalizedIsSettled(raw);
    SettledKeeps(Normalized(raw));
    LoadStored(Normalized(raw));
  }

  lemma {:induction false} NormalizedIsSettled(raw: seq<Raw>)
    ensures forall u :: u in Normalized(raw) ==> !IsUploading(u)
    decreases |raw|
  {
    if raw != [] { NormalizedIsSettled(raw[..|raw| - 1]); }
  }

  lemma {:induction false} SettledKeeps(uploads: seq<Upload>)
    requires forall i :: 0 <= i < |uploads| ==> !IsUploading(uploads[i])
    ensures Settled(uploads) == uploads
    decreases |uploads|
  {
    if uploads != [] {
      var n := |uploads| - 1;
      SettledKeeps(uploads[..n]);
      assert uploads == uploads[..n] + [uploads[n]];
    }
  }

  lemma {:induction false} SettledMember(uploads: seq<Upload>, u: Upload)
    ensures u in Settled(uploads) <==> u in uploads && !IsUploading(u)
    decreases |uploads|
  {
    if uploads != [] {
      var n := |uploads| - 1;
      assert uploads == uploads[..n] + [uploads[n]];
      SettledMember(uploads[..n], u);
    }
  }

  /** A submit binds the same attachments before and after a reload. */
  lemma {:induction false} RowsSurviveReload(uploads: seq<Upload>)
    ensures Rows(Settled(uploads)) == Rows(uploads)
    decreases |uploads|
  {
    if uploads != [] {
      var n := |uploads| - 1;
      RowsSurviveReload(uploads[..n]);
      var s := Settled(uploads[..n]);
      if !IsUploading(uploads[n]) { assert (s + [uploads[n]])[..|s|] == s; }
      if IsUploading(uploads[n]) { assert s + [] == s; }
    }
  }
}
