/** The PATCH handler of a resumable upload, one request at a time. */
module TusHandler {
  import opened Common
  import opened TusStore

  /** io.LimitReader: at most n bytes of the body are read. */
  function Limited(body: Bytes, n: nat): Bytes {
    if |body| <= n then body else body[..n]
  }

  /**
   * What the checks on a request come to. A key that is blocked or has lost
   * access, or a size over the cap, can never pass: the upload is deleted. An
   * unreachable blocklist, a checksum mismatch or a failed save may pass later.
   */
  datatype Checks = Pass | MayPassLater | NeverPasses

  class TusHandler {
    const store: TusStore
    /** The bytes handed to SaveWithDedup, in order. */
    var saved: seq<Bytes>

    ghost predicate Valid()
      reads this, store
    {
      store.Valid() && (store.upload.Some? ==> store.upload.value.offset <= store.upload.value.size)
    }

    constructor (store: TusStore)
      ensures this.store == store && saved == []
    {
      this.store := store;
      saved := [];
    }

    method AppendBody(info: Upload, offset: nat, body: Bytes, key: nat, now: int) returns (r: Result<nat, Error>)
      requires Valid() && key !in store.objects && store.upload == Some(info) && offset == info.offset
      modifies store
      ensures Valid() && store.upload.Some?
      ensures r == if |body| > info.size - offset then Err(TooLarge) else Ok(offset + |body|)
      ensures store.Content() == old(store.Content()) + if r.Ok? then body else []
      ensures r.Err? ==> unchanged(store)
      ensures store.upload.value.offset == |store.Content()| && store.upload.value.size == info.size
      ensures store.upload.value.expires == if r.Ok? && body != [] then now + 86_400 else info.expires
    {
      TiledLength(store.rows, store.bodies, offset);
      var remaining := info.size - offset;
      var data := Limited(body, remaining + 1);
      if |data| > remaining {
        return Err(TooLarge);
      }
      r := store.AppendChunk(offset, data, key, now);
      TiledLength(store.rows, store.bodies, store.upload.value.offset);
    }

    /** A retried last chunk is taken when it is exactly the stored bytes from its offset on. */
    method MatchStoredTail(info: Upload, offset: nat, body: Bytes) returns (r: Result<nat, Error>)
      requires Valid() && store.upload == Some(info) && offset < info.offset == info.size
      ensures |store.Content()| == info.size
      ensures r == if body == store.Content()[offset..] then Ok(info.size) else Err(Conflict)
    {
      TiledLength(store.rows, store.bodies, info.offset);
      var remaining := info.size - offset;
      var data := Limited(body, remaining + 1);
      var stored := store.ReadFrom(offset);
      if stored.Err? {
        return Err(Broken);
      }
      if |stored.value| != remaining || data != stored.value {
        return Err(Conflict);
      }
      return Ok(info.size);
    }

    /** Saves everything and deletes the upload, keeps it for a retry, or deletes it unsaved. */
    method FinalizeUpload(checks: Checks) returns (r: Result<(), Error>)
      requires Valid()
      modifies this, store
      ensures Valid()
      ensures checks.Pass? ==> r == Ok(()) && saved == old(saved) + [old(store.Content())] && store.upload.None?
      ensures checks.MayPassLater? ==>
                && r == Err(CheckFailed) && saved == old(saved)
                && store.upload == old(store.upload) && store.Content() == old(store.Content())
      ensures checks.NeverPasses? ==> r == Err(Rejected) && saved == old(saved) && store.upload.None?
    {
      r := StopFor(checks);
      if r.Err? {
        return;
      }
      var data := store.ReadFrom(0);
      assert data.value == store.Content();
      saved := saved + [data.value];
      var _ := store.Delete();
    }

    /** What a check that fails does to the upload. */
    method StopFor(checks: Checks) returns (r: Result<(), Error>)
      requires Valid()
      modifies store
      ensures Valid()
      ensures checks.Pass? ==> r == Ok(())
      ensures checks.MayPassLater? ==> r == Err(CheckFailed)
      ensures checks.NeverPasses? ==> r == Err(Rejected)
      ensures checks.NeverPasses? ==> store.upload.None?
      ensures !checks.NeverPasses? ==> unchanged(store)
    {
      match checks {
        case Pass => return Ok(());
        case MayPassLater => return Err(CheckFailed);
        case NeverPasses =>
          var _ := store.Delete();
          return Err(Rejected);
      }
    }

    /** The upload is complete once this PATCH is taken. */
    static predicate Completes(u: Upload, offset: nat, body: Bytes) {
      offset != u.offset || offset + |body| == u.size
    }

    /** The offset is the upload's, or an earlier one of a full upload. */
    static predicate OffsetFits(u: Upload, offset: nat) {
      offset == u.offset || offset < u.offset == u.size
    }

    /** What decides whether a PATCH is taken: the next bytes within the size, or a retry of the stored tail. */
    static predicate Taken(u: Upload, content: Bytes, offset: nat, body: Bytes)
      requires |content| == u.offset
    {
      if offset == u.offset then offset + |body| <= u.size
      else offset < u.offset == u.size && body == content[offset..]
    }

    /** The upload and its bytes are as they were, and nothing was saved. */
    twostate predicate Untouched(u: Upload)
      reads this, store
    {
      store.upload == Some(u) && store.Content() == old(store.Content()) && saved == old(saved)
    }

    /** The upload is gone, and nothing was saved. */
    twostate predicate Removed()
      reads this, store
    {
      store.upload.None? && saved == old(saved)
    }

    /**
     * A PATCH that passes the blocklist is taken exactly when it brings the next
     * bytes, no more than the declared size leaves room for, or repeats the tail
     * of a full upload. The PATCH that fills the upload saves the accepted bytes,
     * all of them, unless a final check stops it: then they are kept for a retry,
     * or deleted if the check can never pass. A PATCH is late only past the
     * expiry, which is a day from the creation or from the last chunk.
     */
    method Patch(offset: nat, body: Bytes, key: nat, now: int, blocklist: Checks, final: Checks)
      returns (r: Result<nat, Error>)
      requires Valid() && key !in store.objects
      modifies this, store
      ensures Valid()
      ensures old(store.upload).None? ==> r == Err(NotFound) && Removed()
      ensures old(store.upload).Some? ==>
        var u, content := old(store.upload).value, old(store.Content());
        && |content| == u.offset
        && if now > u.expires then r == Err(Gone) && Removed()
           else if !OffsetFits(u, offset) then r == Err(Conflict) && Untouched(u)
           else if blocklist.MayPassLater? then r == Err(CheckFailed) && Untouched(u)
           else if blocklist.NeverPasses? then r == Err(Rejected) && Removed()
           else if !Taken(u, content, offset, body) then
             r == Err(if offset == u.offset then TooLarge else Conflict) && Untouched(u)
           else
             var all := if offset == u.offset then content + body else content;
             if !Completes(u, offset, body) then
               && r == Ok(offset + |body|) && saved == old(saved)
               && store.Content() == all
               && store.upload == Some(Upload(u.size, offset + |body|, if body == [] then u.expires else now + 86_400))
             else if final.Pass? then
               && r == Ok(u.size) && |all| == u.size
               && saved == old(saved) + [all] && store.upload.None?
             else if final.MayPassLater? then
               && r == Err(CheckFailed) && saved == old(saved)
               && store.Content() == all && store.upload.Some? && store.upload.value.offset == u.size
             else r == Err(Rejected) && Removed()
    {
      if store.upload.None? {
        return Err(NotFound);
      }
      var info := store.upload.value;
      TiledLength(store.rows, store.bodies, info.offset);
      if now > info.expires {
        var _ := store.Delete();
        return Err(Gone);
      }
      var finalizeRetry := offset < info.offset && info.offset >= info.size;
      if offset != info.offset && !finalizeRetry {
        return Err(Conflict);
      }
      var stop := StopFor(blocklist);
      if stop.Err? {
        return Err(stop.error);
      }
      if finalizeRetry {
        r := MatchStoredTail(info, offset, body);
      } else {
        r := AppendBody(info, offset, body, key, now);
      }
      if r.Err? {
        return;
      }
      if r.value >= info.size {
        var done := FinalizeUpload(final);
        if done.Err? {
          return Err(done.error);
        }
      }
    }
  }
}
