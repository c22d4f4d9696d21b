/**
  One token manager of `agents/qwen_oauth_token_manager.py` on its own: the object whose methods the
  steps of `RefreshLock` take apart.
 */
module TokenManager {
  import opened Basics
  import opened RefreshLock

  /** What the surroundings answer during one call. */
  datatype Surroundings = Surroundings(
    now: int,           // clock when the call is made
    checkedAt: int,     // clock when the token is checked under the file lock
    answeredAt: int,    // clock when the token server has answered
    reply: Reply,
    saveWorks: bool)

  class QwenOAuthTokenManager {
    var credentials: Credentials
    var entry: CacheEntry                 // the memory cache of this process for this key
    var file: Option<CredentialsFile>
    var requests: nat                     // requests sent to the token server

    /** Within 5 s of the last look the memory cache answers, unless the reload is forced.  Otherwise the
        file is looked at, and read when it is newer than what was read before or the reload is forced. */
    method ReloadIfChanged(force: bool, now: int)
      modifies `credentials, `entry
      ensures (entry, credentials) == Reload(force, now, old(entry), file, old(credentials))
      ensures !force && now < old(entry.lastCheckMs) + 5_000 ==>
                && entry == old(entry)
                && credentials == if old(entry.cached.Some?) then old(entry.cached.value) else old(credentials)
      ensures force || now >= old(entry.lastCheckMs) + 5_000 ==>
                && entry.lastCheckMs == now
                && (file.None? ==>
                      entry.cached == old(entry.cached) && entry.fileMtime == 0 && credentials == old(credentials))
                && (file.Some? && (force || file.value.mtime > old(entry.fileMtime)) ==>
                      && credentials == file.value.content && entry.cached == Some(credentials)
                      && entry.fileMtime == file.value.mtime)
                && (file.Some? && !force && file.value.mtime <= old(entry.fileMtime) ==>
                      entry == old(entry).(lastCheckMs := now) && credentials == old(credentials))
    {
      if !force && now - entry.lastCheckMs < CACHE_CHECK_INTERVAL_MS {
        if entry.cached.Some? {
          credentials := entry.cached.value;
        }
        return;
      }
      entry := entry.(lastCheckMs := now);
      if file.None? {
        entry := entry.(fileMtime := 0);
        return;
      }
      if force || file.value.mtime > entry.fileMtime {
        credentials := file.value.content;
        entry := entry.(cached := Some(credentials), fileMtime := file.value.mtime);
      }
    }

    /** The section under the file lock, for the saved token or, without a file, the one at hand.  Exactly one
        request is sent when that token is empty, has no expiry, or has less than 30 s left; a token that was
        granted is what every later forced reload finds, when saving works. */
    method RefreshAndPersistIfNeeded(e: Surroundings) returns (ok: bool)
      requires e.reply.Grant? ==> e.reply.token != ""
      modifies this
      ensures
        var before := if old(file.Some?) then old(file.value.content) else old(credentials);
        var lapsed := before.accessToken == "" || before.expiryDate.None?
                || e.checkedAt >= before.expiryDate.value - 30_000;
        && requests == old(requests) + (if lapsed then 1 else 0)
        && (!lapsed ==> ok && credentials == before && file == old(file))
        && (lapsed ==>
              && (ok <==> e.reply.Grant?)
              && (ok ==> credentials == Credentials(e.reply.token, Some(e.answeredAt + e.reply.expiresIn * 1000)))
              && (ok && e.saveWorks ==> file == Some(CredentialsFile(credentials, e.answeredAt)))
              && (ok && !e.saveWorks ==> file == old(file))
              && (ok ==>
                    entry == CacheEntry(Some(credentials), if file.Some? then file.value.mtime else 0, e.answeredAt))
              && (e.reply.InvalidToken? ==> file.None? && entry == CacheEntry(None, 0, 0) && credentials == before)
              && (e.reply.Failure? ==> file == old(file) && credentials == before))
    {
      ReloadIfChanged(true, e.checkedAt);
      if IsTokenValid(credentials, e.checkedAt) {
        return true;
      }
      requests := requests + 1;
      match e.reply {
        case InvalidToken =>
          file, entry := None, EMPTY_ENTRY;
          return false;
        case Failure =>
          return false;
        case Grant(token, expiresIn) =>
          credentials := Credentials(token, Some(e.answeredAt + expiresIn * 1000));
          if e.saveWorks {
            file := Some(CredentialsFile(credentials, e.answeredAt));
          }
          entry := CacheEntry(Some(credentials), if file.Some? then file.value.mtime else 0, e.answeredAt);
          return true;
      }
    }

    /** `get_valid_credentials` without competitors.  A token counts as good when it is not empty and has more
        than 30 s left.  Two tests skip the rest of the call when no refresh is forced; the test under the file
        lock does not ask whether one is.  So a forced call sends a request exactly when the saved token, or
        without a file the token at hand, is no longer good. */
    method GetValidCredentials(forceRefresh: bool, e: Surroundings) returns (ok: bool, r: Credentials)
      requires e.reply.Grant? ==> e.reply.token != ""
      modifies this
      ensures ok ==> r == credentials
      ensures requests == old(requests) ==>
                && ok && file == old(file) && r.accessToken != "" && r.expiryDate.Some?
                && (e.now < r.expiryDate.value - 30_000 || e.checkedAt < r.expiryDate.value - 30_000)
      ensures requests != old(requests) ==>
                && requests == old(requests) + 1 && (ok <==> e.reply.Grant?)
                && (ok ==> r == Credentials(e.reply.token, Some(e.answeredAt + e.reply.expiresIn * 1000)))
      ensures
        var good := (c: Credentials, now: int) =>
            c.accessToken != "" && c.expiryDate.Some? && now < c.expiryDate.value - 30_000;
        var seen := Reload(false, e.now, old(entry), old(file), old(credentials)).1;
        var saved := if old(file.Some?) then old(file.value.content) else seen;
        requests == old(requests)
        <==> good(saved, e.checkedAt) || (!forceRefresh && (good(seen, e.now) || good(saved, e.now)))
      ensures forceRefresh && old(file.Some?) ==>
                var saved := old(file.value.content);
                (requests == old(requests) + 1
                 <==> saved.accessToken == "" || saved.expiryDate.None?
                      || e.checkedAt >= saved.expiryDate.value - 30_000)
    {
      ReloadIfChanged(false, e.now);
      if !forceRefresh && IsTokenValid(credentials, e.now) {
        return true, credentials;
      }
      ReloadIfChanged(true, e.now);
      if !forceRefresh && IsTokenValid(credentials, e.now) {
        return true, credentials;
      }
      ok := RefreshAndPersistIfNeeded(e);
      r := credentials;
    }
  }
}
