/** The cache store (`get_cache`, `save_cache`): one file holding a JSON
    object with a capture `timestamp` and the list of `emails`. A read
    answers with the stored list while it is at most `cacheExpiry` seconds
    old; a write replaces the file with the current time and the given list.
    The filesystem and the JSON codec are not modelled: the file is seen
    through what parsing it yields. */
module Cache {
  import opened Common
  import opened Mime

  /** The `timestamp` field of the stored object: absent (read as 0), a
      number of seconds, or a JSON value that is not a number. */
  datatype Stamp = Missing | Number(seconds: int) | NotNumber

  /** The parsed document: an object with the two fields (`emails` is `None`
      when that field is absent or null), or valid JSON of another shape. */
  datatype Document = Object(timestamp: Stamp, emails: Option<seq<EmailRecord>>) | NotObject

  /** The cache file: absent; present but unreadable (an I/O error) or not
      valid JSON; present but not valid UTF-8, whose decoding error is neither
      of the two caught kinds; or parsed. */
  datatype CacheFile = NoFile | Unparsable | Undecodable | Parsed(doc: Document)

  /** The answer of a cache read: no usable entry, the cached list, or an
      exception that the read's handler does not catch and that therefore
      leaves it. */
  datatype Lookup = Miss | Hit(emails: seq<EmailRecord>) | Escapes

  /** How a cache write ends: completed; raised before the file was opened,
      so the old content stays; or raised while writing (a full disk, say)
      after the open truncated the file, leaving a prefix of the dump. The
      dump is UTF-8 with non-ASCII text kept as is, so the cut can fall
      inside a multi-byte character (`midChar`), and that prefix is no
      longer valid UTF-8; otherwise it is merely incomplete JSON. */
  datatype WriteOutcome = Written | OpenFails | DumpFails(midChar: bool)

  /** The file after a write, and whether the write raised. */
  datatype Saved = Saved(file: CacheFile, raised: bool)

  /** `cache_data.get('timestamp', 0)` for a numeric or absent field. */
  function StampSeconds(s: Stamp): int
    requires !s.NotNumber?
  {
    match s
    case Missing => 0
    case Number(t) => t
  }

  /** An entry captured at `stamp` is stale at `now` once strictly more than
      the expiry window has passed. */
  predicate Expired(cfg: Config, stamp: int, now: int)
  {
    now - stamp > cfg.cacheExpiry
  }

  /** `get_cache` at time `now`. */
  function GetCache(cfg: Config, file: CacheFile, now: int): (r: Lookup)
    ensures r.Hit? ==> file.Parsed? && file.doc.Object? && file.doc.emails == Some(r.emails)
                       && !file.doc.timestamp.NotNumber?
                       && !Expired(cfg, StampSeconds(file.doc.timestamp), now)
    ensures r.Escapes? ==> file.Parsed? || file.Undecodable?
  {
    match file
    case NoFile => Miss
    case Unparsable => Miss
    case Undecodable => Escapes                // UnicodeDecodeError is not caught
    case Parsed(NotObject) => Escapes          // `.get` on a non-object raises AttributeError
    case Parsed(Object(stamp, emails)) =>
      if stamp.NotNumber? then Escapes         // the subtraction raises TypeError
      else if Expired(cfg, StampSeconds(stamp), now) then Miss
      else if emails.None? then Miss
      else Hit(emails.value)
  }

  /** `save_cache` at time `now`, with the filesystem's outcome `w`. */
  function SaveCache(file: CacheFile, emails: seq<EmailRecord>, now: int, w: WriteOutcome): (s: Saved)
    ensures s.raised <==> w != Written
    ensures w == OpenFails ==> s.file == file
    ensures w.DumpFails? ==> s.file == (if w.midChar then Undecodable else Unparsable)
  {
    match w
    case Written => Saved(Parsed(Object(Number(now), Some(emails))), false)
    case OpenFails => Saved(file, true)
    case DumpFails(midChar) => Saved(if midChar then Undecodable else Unparsable, true)
  }

  /** Every way a read can miss: no file, an unreadable or unparsable file,
      an entry older than the window (a missing timestamp counts as 0), or
      an entry without an email list; and the three ways it escapes. */
  lemma {:induction false} GetCacheSpec(cfg: Config, file: CacheFile, now: int)
    ensures GetCache(cfg, file, now) == Miss <==>
            || file.NoFile?
            || file.Unparsable?
            || (file.Parsed? && file.doc.Object? && !file.doc.timestamp.NotNumber?
                && (Expired(cfg, StampSeconds(file.doc.timestamp), now) || file.doc.emails.None?))
    ensures GetCache(cfg, file, now).Escapes? <==>
            || file.Undecodable?
            || (file.Parsed? && (file.doc.NotObject? || file.doc.timestamp.NotNumber?))
    ensures GetCache(cfg, file, now).Hit? <==>
            file.Parsed? && file.doc.Object? && !file.doc.timestamp.NotNumber?
            && !Expired(cfg, StampSeconds(file.doc.timestamp), now) && file.doc.emails.Some?
  {
  }

  /** Round trip: after a completed write at `saved`, a read at `now` gives
      back exactly the written list, in order, while `now - saved` is within
      the window, and misses from then on. */
  lemma {:induction false} SaveThenGet(cfg: Config, file: CacheFile, emails: seq<EmailRecord>, saved: int, now: int)
    ensures GetCache(cfg, SaveCache(file, emails, saved, Written).file, now)
            == if now - saved <= cfg.cacheExpiry then Hit(emails) else Miss
  {
  }

  /** A failed write never makes a stale or missing list readable: the old
      file is kept, or the truncated file reads as a miss; but a file cut
      inside a multi-byte character makes every later read raise. */
  lemma {:induction false} FailedSaveReads(cfg: Config, file: CacheFile, emails: seq<EmailRecord>, saved: int, w: WriteOutcome, now: int)
    requires w != Written
    ensures GetCache(cfg, SaveCache(file, emails, saved, w).file, now)
            == if w == OpenFails then GetCache(cfg, file, now)
               else if w.midChar then Escapes
               else Miss
  {
  }

  /** With the shipped five-minute window an entry is still served exactly
      300 seconds after capture, and not one second later. */
  lemma {:induction false} ShippedExpiryBoundary(file: CacheFile, emails: seq<EmailRecord>, saved: int)
    ensures GetCache(Shipped, SaveCache(file, emails, saved, Written).file, saved + 300) == Hit(emails)
    ensures GetCache(Shipped, SaveCache(file, emails, saved, Written).file, saved + 301) == Miss
  {
    SaveThenGet(Shipped, file, emails, saved, saved + 300);
    SaveThenGet(Shipped, file, emails, saved, saved + 301);
  }
}
