/**
 * The poster upload: a chain of guards (author, status, file type, file
 * size), then the replacement of the stored poster attachment and the move
 * from `aprovado` to `poster_enviado`. The file itself, its MIME sniffing and
 * the WordPress media calls are inputs: `mime` and `size` describe the file,
 * `uploadFailed` is the upload handler's error, and `inserted` is the id the
 * attachment insert returns. The insert is not asked for a `WP_Error`, so it
 * reports a failure as the id 0 and the upload goes on with that id.
 */
module PosterUpload {
  import opened Meta
  import opened StatusManager

  /** `MAX_SIZE`: 10 MB in bytes. */
  const MaxSize: nat := 10485760

  const PdfMime: string := "application/pdf"

  /** The statuses in which a poster may be sent: after approval, and again to replace it. */
  const UploadStatuses: set<Status> := {Aprovado, PosterEnviado}

  /** The first guard an upload fails, in the order they are checked. */
  function Rejection(p: Post, actor: UserId, mime: string, size: nat, uploadFailed: bool): (e: Option<Error>)
    ensures e == Some(Unauthorized) <==> actor != p.authorId
    ensures e == Some(InvalidStatus) <==> actor == p.authorId && GetStatus(p) !in UploadStatuses
    ensures e == Some(InvalidFile) <==>
      actor == p.authorId && GetStatus(p) in UploadStatuses && mime != PdfMime
    ensures e == Some(FileTooLarge) <==>
      actor == p.authorId && GetStatus(p) in UploadStatuses && mime == PdfMime && size > MaxSize
    ensures e == Some(UploadError) <==>
      actor == p.authorId && GetStatus(p) in UploadStatuses && mime == PdfMime && size <= MaxSize && uploadFailed
    ensures e.None? || e.value in {Unauthorized, InvalidStatus, InvalidFile, FileTooLarge, UploadError}
  {
    if actor != p.authorId then Some(Unauthorized)
    else if GetStatus(p) !in UploadStatuses then Some(InvalidStatus)
    else if mime != PdfMime then Some(InvalidFile)
    else if size > MaxSize then Some(FileTooLarge)
    else if uploadFailed then Some(UploadError)
    else None
  }

  /**
   * An upload gets past the guards exactly when the author sends a PDF of at
   * most 10 MB for an approved work (or one whose poster is already in), and
   * the upload handler succeeds.
   */
  lemma UploadAccepts(p: Post, actor: UserId, mime: string, size: nat, uploadFailed: bool)
    ensures Rejection(p, actor, mime, size, uploadFailed).None? <==>
      && actor == p.authorId
      && (p.status == Some(Aprovado) || p.status == Some(PosterEnviado))
      && mime == PdfMime
      && size <= MaxSize
      && !uploadFailed
  {
  }

  /** The size limit is inclusive: exactly 10 MB passes, one byte more does not. */
  lemma SizeLimitIsInclusive(p: Post, mime: string)
    requires GetStatus(p) in UploadStatuses && mime == PdfMime
    ensures Rejection(p, p.authorId, mime, MaxSize, false).None?
    ensures Rejection(p, p.authorId, mime, MaxSize + 1, false) == Some(FileTooLarge)
  {
  }

  /** The post after a successful upload of `attachment`. */
  function Uploaded(p: Post, attachment: nat): (q: Post)
    ensures q.posterId == attachment
    ensures p.status == Some(Aprovado) || p.status == Some(PosterEnviado) ==> q.status == Some(PosterEnviado)
    ensures q.(posterId := p.posterId, status := p.status) == p
  {
    p.(posterId := attachment, status := if GetStatus(p) == Aprovado then Some(PosterEnviado) else p.status)
  }

  /**
   * The status change of an upload follows a legal edge of the lifecycle, and
   * a later upload of a replacement is accepted on the same terms as the
   * first one and leaves the status where it is.
   */
  lemma UploadLifecycle(p: Post, attachment: nat, next: nat, mime: string, size: nat, uploadFailed: bool)
    requires Rejection(p, p.authorId, mime, size, uploadFailed).None?
    ensures GetStatus(p) == Aprovado ==> CanTransition(Aprovado, PosterEnviado)
    ensures Rejection(Uploaded(p, attachment), p.authorId, mime, size, uploadFailed).None?
    ensures Uploaded(Uploaded(p, attachment), next) == Uploaded(p, next)
  {
  }

  /** The deletions an upload asks for: the previous poster, when one is stored. */
  function Replaced(p: Post): seq<Notice> {
    if p.posterId != 0 then [AttachmentDeleted(p.posterId)] else []
  }

  /**
   * A failed attachment insert (id 0) after the guards pass still deletes the
   * stored poster, stores 0 as the poster id and moves the work to
   * `poster_enviado`: the work ends with no poster but counts as having sent one.
   */
  lemma FailedInsertDropsPoster(p: Post, mime: string, size: nat)
    requires Rejection(p, p.authorId, mime, size, false).None? && p.posterId != 0
    ensures Replaced(p) == [AttachmentDeleted(p.posterId)]
    ensures Uploaded(p, 0).posterId == 0 && Uploaded(p, 0).status == Some(PosterEnviado)
  {
    UploadAccepts(p, p.authorId, mime, size, false);
  }

  /**
   * `upload`: each failed guard returns its error and changes nothing. Past
   * the guards, whatever id the insert returns, 0 included, the previous
   * poster is deleted, `poster_id` takes that id, an approved work moves to
   * `poster_enviado` and the id is returned.
   */
  method Upload(db: MetaStore, actor: UserId, id: PostId, mime: string, size: nat, uploadFailed: bool, inserted: nat)
    returns (r: Result<nat>)
    modifies db
    ensures Rejection(old(db.Read(id)), actor, mime, size, uploadFailed).Some? ==>
      && r == Err(Rejection(old(db.Read(id)), actor, mime, size, uploadFailed).value)
      && unchanged(db)
    ensures Rejection(old(db.Read(id)), actor, mime, size, uploadFailed).None? ==>
      && r == Ok(inserted)
      && db.posts == old(db.posts)[id := Uploaded(old(db.Read(id)), inserted)]
      && db.outbox == old(db.outbox) + Replaced(old(db.Read(id))) +
        (if GetStatus(old(db.Read(id))) == Aprovado then [StatusChanged(id, PosterEnviado, Aprovado)] else [])
  {
    var author := db.Read(id).authorId;
    if actor != author {
      return Err(Unauthorized);
    }
    var status := GetStatus(db.Read(id));
    if status != Aprovado && status != PosterEnviado {
      return Err(InvalidStatus);
    }
    if mime != PdfMime {
      return Err(InvalidFile);
    }
    if size > MaxSize {
      return Err(FileTooLarge);
    }
    if uploadFailed {
      return Err(UploadError);
    }
    var attachment := inserted;
    var oldPoster := db.Read(id).posterId;
    if oldPoster != 0 {
      db.outbox := db.outbox + [AttachmentDeleted(oldPoster)];
    }
    db.posts := db.posts[id := db.Read(id).(posterId := attachment)];
    if status == Aprovado {
      var _ := Transition(db, id, PosterEnviado);
    }
    r := Ok(attachment);
  }
}
