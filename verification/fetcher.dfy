/** The mailbox fetcher (`get_emails`, `process_email_batch`): answer from a
    fresh cache when asked to, otherwise list the inbox, keep the most recent
    ids, fetch them batch by batch (each batch back to front), skip every
    message that fails, write the result to the cache and return it. Any
    failure on the session path returns an empty list instead. The mail
    server, the filesystem and the clock are inputs. */
module Fetcher {
  import opened Common
  import opened Mime
  import opened Headers
  import opened Bodies
  import opened Cache
  import opened Batching

  /** The remote mailbox as one fetch meets it: whether connecting, logging
      in, selecting the inbox and searching all succeed; the ids the search
      lists, oldest first; the parsed message for an id (`None` when fetching
      or parsing it raises); and whether closing and logging out succeed. */
  datatype Mailbox = Mailbox(
    opens: bool,
    listed: seq<Bytes>,
    fetch: Bytes -> Option<Message>,
    closes: bool)

  /** Everything outside the client that one call meets: the cache file, the
      clock when the cache is read and when it is written, how the write
      ends, the mailbox, and the codecs. */
  datatype Env = Env(
    cache: CacheFile,
    readTime: int,
    saveTime: int,
    write: WriteOutcome,
    mailbox: Mailbox,
    codecs: Codecs)

  /** How a call ends: the list it returns, the cache file afterwards, and
      whether it contacted the server; or an exception from the cache read,
      which happens before the handler is entered and so leaves the call. */
  datatype Outcome =
    | Returned(emails: seq<EmailRecord>, cache: CacheFile, contacted: bool)
    | Raised(cache: CacheFile)

  /** The record for one id, or `None` when fetching, parsing or decoding the
      id (strict UTF-8) raises. Header and body decoding never raise. */
  function Record(cx: Codecs, mb: Mailbox, id: Bytes): (rec: Option<EmailRecord>)
    ensures rec.Some? <==> mb.fetch(id).Some? && cx.strict("utf-8", id).Some?
    ensures rec.Some? ==> cx.strict("utf-8", id) == Some(rec.value.id)
  {
    match mb.fetch(id)
    case None => None
    case Some(msg) =>
      match cx.strict("utf-8", id)
      case None => None
      case Some(text) =>
        Some(EmailRecord(text,
                         DecodeHeader(cx, msg.subject),
                         DecodeHeader(cx, msg.from),
                         DecodeHeader(cx, msg.date),
                         ExtractBody(cx, msg)))
  }

  predicate Processes(cx: Codecs, mb: Mailbox, id: Bytes)
  {
    Record(cx, mb, id).Some?
  }

  /** The records of `ids` in order, leaving out every id that fails. */
  function Harvest(cx: Codecs, mb: Mailbox, ids: seq<Bytes>): (recs: seq<EmailRecord>)
    ensures |recs| <= |ids|
    ensures |recs| == |ids| <==> forall i :: 0 <= i < |ids| ==> Processes(cx, mb, ids[i])
    decreases |ids|
  {
    if ids == [] then []
    else
      (if Processes(cx, mb, ids[0]) then [Record(cx, mb, ids[0]).value] else [])
      + Harvest(cx, mb, ids[1..])
  }

  /** `process_email_batch`: the batch walked back to front. */
  function ProcessBatch(cx: Codecs, mb: Mailbox, batch: seq<Bytes>): (recs: seq<EmailRecord>)
    ensures |recs| <= |batch|
  {
    Harvest(cx, mb, Reverse(batch))
  }

  /** The fetch loop over the kept ids: batches of `k` in order, each
      processed by `ProcessBatch`, results appended. */
  function Collect(cx: Codecs, mb: Mailbox, ids: seq<Bytes>, k: int): (recs: seq<EmailRecord>)
    requires k > 0
    ensures |recs| <= |ids|
    decreases |ids|
  {
    if ids == [] then []
    else
      var m := Min(k, |ids|);
      ProcessBatch(cx, mb, ids[..m]) + Collect(cx, mb, ids[m..], k)
  }

  /** The session path of `get_emails` (everything inside its handler). */
  function FetchFromServer(cfg: Config, env: Env): (o: Outcome)
    ensures o.Returned? && o.contacted
    ensures |o.emails| <= |env.mailbox.listed|
    ensures o.emails != [] ==> o.cache == Parsed(Object(Number(env.saveTime), Some(o.emails)))
    ensures o.emails != [] ==>
              cfg.batchSize > 0
              && o.emails == Collect(env.codecs, env.mailbox, Latest(env.mailbox.listed, cfg.maxEmails), cfg.batchSize)
  {
    var mb := env.mailbox;
    if !mb.opens then
      Returned([], env.cache, true)
    else if cfg.batchSize == 0 then
      Returned([], env.cache, true)       // range() with a zero step raises
    else
      var latest := Latest(mb.listed, cfg.maxEmails);
      var emails := if cfg.batchSize < 0 then [] else Collect(env.codecs, mb, latest, cfg.batchSize);
      if !mb.closes then
        Returned([], env.cache, true)
      else
        var saved := SaveCache(env.cache, emails, env.saveTime, env.write);
        if saved.raised then Returned([], saved.file, true) else Returned(emails, saved.file, true)
  }

  /** `get_emails(use_cache)`. */
  function GetEmails(cfg: Config, useCache: bool, env: Env): (o: Outcome)
    ensures o.Raised? <==> useCache && GetCache(cfg, env.cache, env.readTime).Escapes?
    ensures o.Raised? ==> o.cache == env.cache
    ensures o.Returned? && !o.contacted ==>
              useCache && o.emails != [] && o.cache == env.cache
              && GetCache(cfg, env.cache, env.readTime) == Hit(o.emails)
  {
    var cached := if useCache then GetCache(cfg, env.cache, env.readTime) else Miss;
    if cached.Escapes? then Raised(env.cache)
    else if cached.Hit? && cached.emails != [] then Returned(cached.emails, env.cache, false)
    else FetchFromServer(cfg, env)
  }

  /** Skipping commutes with concatenation. */
  lemma {:induction false} HarvestAppend(cx: Codecs, mb: Mailbox, a: seq<Bytes>, b: seq<Bytes>)
    ensures Harvest(cx, mb, a + b) == Harvest(cx, mb, a) + Harvest(cx, mb, b)
    decreases |a|
  {
    if a != [] {
      var head := if Processes(cx, mb, a[0]) then [Record(cx, mb, a[0]).value] else [];
      assert (a + b)[0] == a[0];
      assert (a + b)[1..] == a[1..] + b;
      calc {
        Harvest(cx, mb, a + b);
        head + Harvest(cx, mb, a[1..] + b);
        { HarvestAppend(cx, mb, a[1..], b); }
        head + (Harvest(cx, mb, a[1..]) + Harvest(cx, mb, b));
        Harvest(cx, mb, a) + Harvest(cx, mb, b);
      }
    } else {
      assert a + b == b;
    }
  }

  /** One failing message does not stop the rest: it simply drops out. */
  lemma {:induction false} FailureIsSkipped(cx: Codecs, mb: Mailbox, a: seq<Bytes>, bad: Bytes, b: seq<Bytes>)
    requires !Processes(cx, mb, bad)
    ensures Harvest(cx, mb, a + [bad] + b) == Harvest(cx, mb, a) + Harvest(cx, mb, b)
  {
    HarvestAppend(cx, mb, a + [bad], b);
    HarvestAppend(cx, mb, a, [bad]);
    assert [bad][1..] == [];
    assert Harvest(cx, mb, [bad]) == [];
    assert Harvest(cx, mb, a + [bad]) == Harvest(cx, mb, a);
  }

  /** When every message succeeds, the output has one record per id, in
      the same order. */
  lemma {:induction false} HarvestAllSucceed(cx: Codecs, mb: Mailbox, ids: seq<Bytes>)
    requires forall i :: 0 <= i < |ids| ==> Processes(cx, mb, ids[i])
    ensures |Harvest(cx, mb, ids)| == |ids|
    ensures forall i :: 0 <= i < |ids| ==> Harvest(cx, mb, ids)[i] == Record(cx, mb, ids[i]).value
    decreases |ids|
  {
    if ids != [] {
      HarvestAllSucceed(cx, mb, ids[1..]);
      var rest := Harvest(cx, mb, ids[1..]);
      assert Harvest(cx, mb, ids) == [Record(cx, mb, ids[0]).value] + rest;
      forall i | 0 < i < |ids|
        ensures Harvest(cx, mb, ids)[i] == Record(cx, mb, ids[i]).value
      {
        assert ids[1..][i - 1] == ids[i];
      }
    }
  }

  /** `rec` is the record of one of `ids`. */
  ghost predicate FromOneOf(cx: Codecs, mb: Mailbox, ids: seq<Bytes>, rec: EmailRecord)
  {
    exists i :: 0 <= i < |ids| && Record(cx, mb, ids[i]) == Some(rec)
  }

  /** Every returned record stems from one of the ids: its id is that id's
      decoded text, and its fields are that message's. */
  lemma {:induction false} HarvestOrigin(cx: Codecs, mb: Mailbox, ids: seq<Bytes>)
    ensures forall j :: 0 <= j < |Harvest(cx, mb, ids)| ==> FromOneOf(cx, mb, ids, Harvest(cx, mb, ids)[j])
    decreases |ids|
  {
    if ids != [] {
      HarvestOrigin(cx, mb, ids[1..]);
      var head := if Processes(cx, mb, ids[0]) then [Record(cx, mb, ids[0]).value] else [];
      var rest := Harvest(cx, mb, ids[1..]);
      var all := Harvest(cx, mb, ids);
      assert all == head + rest;
      forall j | 0 <= j < |all|
        ensures FromOneOf(cx, mb, ids, all[j])
      {
        if j < |head| {
          assert Record(cx, mb, ids[0]) == Some(all[j]);
        } else {
          assert all[j] == rest[j - |head|];
          assert FromOneOf(cx, mb, ids[1..], rest[j - |head|]);
          var i :| 0 <= i < |ids[1..]| && Record(cx, mb, ids[1..][i]) == Some(rest[j - |head|]);
          assert Record(cx, mb, ids[i + 1]) == Some(all[j]);
        }
      }
    }
  }

  /** Being the record of one of the ids does not depend on their order. */
  lemma {:induction false} FromOneOfPermuted(cx: Codecs, mb: Mailbox, ids: seq<Bytes>, other: seq<Bytes>, rec: EmailRecord)
    requires multiset(ids) == multiset(other)
    requires FromOneOf(cx, mb, ids, rec)
    ensures FromOneOf(cx, mb, other, rec)
  {
    var i :| 0 <= i < |ids| && Record(cx, mb, ids[i]) == Some(rec);
    assert ids[i] in multiset(other);
    var i' :| 0 <= i' < |other| && other[i'] == ids[i];
  }

  /** The whole fetch loop is the skip rule applied to the batch visiting
      order: batching and reversing first, dropping failures second. */
  lemma {:induction false} CollectIsHarvestOfBatchOrder(cx: Codecs, mb: Mailbox, ids: seq<Bytes>, k: int)
    requires k > 0
    ensures Collect(cx, mb, ids, k) == Harvest(cx, mb, BatchOrder(ids, k))
    decreases |ids|
  {
    if ids != [] {
      var m := Min(k, |ids|);
      CollectIsHarvestOfBatchOrder(cx, mb, ids[m..], k);
      BatchOrderUnfold(ids, k);
      HarvestAppend(cx, mb, Reverse(ids[..m]), BatchOrder(ids[m..], k));
    }
  }

  /** A valid, non-empty cached list is returned as it is, without
      contacting the server and without touching the cache. */
  lemma {:induction false} CacheHitSkipsServer(cfg: Config, env: Env, cached: seq<EmailRecord>)
    requires GetCache(cfg, env.cache, env.readTime) == Hit(cached) && cached != []
    ensures GetEmails(cfg, true, env) == Returned(cached, env.cache, false)
  {
  }

  /** A miss, an empty cached list, or `use_cache=False` all go to the server. */
  lemma {:induction false} MissGoesToServer(cfg: Config, useCache: bool, env: Env)
    requires !useCache || GetCache(cfg, env.cache, env.readTime) in {Miss, Hit([])}
    ensures GetEmails(cfg, useCache, env) == FetchFromServer(cfg, env)
    ensures GetEmails(cfg, useCache, env).contacted
  {
  }

  /** A successful fetch returns the collected records and writes exactly
      them, stamped with the write time, whatever `use_cache` was; a cache
      read right after (within the window) gives the same list back. */
  lemma {:induction false} SuccessIsCached(cfg: Config, env: Env, now: int)
    requires env.mailbox.opens && env.mailbox.closes && cfg.batchSize > 0 && env.write == Written
    requires env.saveTime <= now <= env.saveTime + cfg.cacheExpiry
    ensures var emails := Collect(env.codecs, env.mailbox, Latest(env.mailbox.listed, cfg.maxEmails), cfg.batchSize);
            && FetchFromServer(cfg, env) == Returned(emails, Parsed(Object(Number(env.saveTime), Some(emails))), true)
            && GetCache(cfg, FetchFromServer(cfg, env).cache, now) == Hit(emails)
  {
  }

  /** Fail soft: when the session cannot be opened, the batch size is zero,
      the session cannot be closed or the cache write raises, the result is
      an empty list; whatever was fetched is discarded. Only a write that
      raised part-way changes the cache file. */
  lemma {:induction false} FailuresReturnNothing(cfg: Config, env: Env)
    requires || !env.mailbox.opens
             || cfg.batchSize == 0
             || !env.mailbox.closes
             || env.write != Written
    ensures FetchFromServer(cfg, env).emails == []
    ensures !env.write.DumpFails? || !env.mailbox.opens || cfg.batchSize == 0 || !env.mailbox.closes
            ==> FetchFromServer(cfg, env).cache == env.cache
  {
  }

  /** A successful fetch whose cache write is cut inside a multi-byte
      character returns nothing, and from then on every cached call raises
      instead of fetching again, until the file is replaced. */
  lemma {:induction false} TornWriteKeepsRaising(cfg: Config, env: Env, later: Env)
    requires env.mailbox.opens && env.mailbox.closes && cfg.batchSize > 0
    requires env.write == DumpFails(true)
    requires later.cache == FetchFromServer(cfg, env).cache
    ensures FetchFromServer(cfg, env).emails == []
    ensures GetEmails(cfg, true, later) == Raised(Undecodable)
  {
  }

  /** A negative batch size makes the batch loop empty: nothing is fetched,
      yet the (empty) result is written to the cache as a success. */
  lemma {:induction false} NegativeBatchSizeCachesEmpty(cfg: Config, env: Env)
    requires env.mailbox.opens && env.mailbox.closes && cfg.batchSize < 0 && env.write == Written
    ensures FetchFromServer(cfg, env) == Returned([], Parsed(Object(Number(env.saveTime), Some([]))), true)
  {
  }

  /** The batch loop only turns the given ids into records: every record it
      yields is that of one of them. */
  lemma {:induction false} CollectOrigin(cx: Codecs, mb: Mailbox, ids: seq<Bytes>, k: int)
    requires k > 0
    ensures forall j :: 0 <= j < |Collect(cx, mb, ids, k)| ==> FromOneOf(cx, mb, ids, Collect(cx, mb, ids, k)[j])
  {
    var order := BatchOrder(ids, k);
    var recs := Collect(cx, mb, ids, k);
    CollectIsHarvestOfBatchOrder(cx, mb, ids, k);
    HarvestOrigin(cx, mb, order);
    BatchOrderPermutes(ids, k);
    forall j | 0 <= j < |recs|
      ensures FromOneOf(cx, mb, ids, recs[j])
    {
      FromOneOfPermuted(cx, mb, order, ids, recs[j]);
    }
  }

  /** With the shipped settings and 25 listed ids, only the last 20 are ever fetched. */
  lemma {:induction false} TwentyFiveIdsKeepLastTwenty(env: Env)
    requires |env.mailbox.listed| == 25
    ensures Latest(env.mailbox.listed, Shipped.maxEmails) == env.mailbox.listed[5..]
    ensures forall j :: 0 <= j < |FetchFromServer(Shipped, env).emails| ==>
              exists i :: 5 <= i < 25
                          && Record(env.codecs, env.mailbox, env.mailbox.listed[i])
                             == Some(FetchFromServer(Shipped, env).emails[j])
  {
    var listed := env.mailbox.listed;
    var emails := FetchFromServer(Shipped, env).emails;
    CollectOrigin(env.codecs, env.mailbox, listed[5..], Shipped.batchSize);
    assert Latest(listed, Shipped.maxEmails) == listed[5..];
    forall j | 0 <= j < |emails|
      ensures exists i :: 5 <= i < 25 && Record(env.codecs, env.mailbox, listed[i]) == Some(emails[j])
    {
      assert FromOneOf(env.codecs, env.mailbox, listed[5..], emails[j]);
      var i :| 0 <= i < 20 && Record(env.codecs, env.mailbox, listed[5..][i]) == Some(emails[j]);
      assert listed[5..][i] == listed[i + 5];
    }
  }

  /** When every message succeeds, the batch loop yields one record per id,
      in the batch visiting order. */
  lemma {:induction false} AllSucceedOrder(cx: Codecs, mb: Mailbox, ids: seq<Bytes>, k: int)
    requires k > 0
    requires forall i :: 0 <= i < |ids| ==> Processes(cx, mb, ids[i])
    ensures |Collect(cx, mb, ids, k)| == |ids|
    ensures forall j :: 0 <= j < |ids| ==> Some(Collect(cx, mb, ids, k)[j]) == Record(cx, mb, BatchOrder(ids, k)[j])
  {
    var order := BatchOrder(ids, k);
    CollectIsHarvestOfBatchOrder(cx, mb, ids, k);
    BatchOrderPermutes(ids, k);
    forall i | 0 <= i < |order|
      ensures Processes(cx, mb, order[i])
    {
      assert order[i] in multiset(ids);
    }
    HarvestAllSucceed(cx, mb, order);
  }

  /** The loop of `process_email_batch`. */
  method ProcessBatchLoop(cx: Codecs, mb: Mailbox, batch: seq<Bytes>) returns (emails: seq<EmailRecord>)
    ensures emails == ProcessBatch(cx, mb, batch)
  {
    var order := Reverse(batch);
    emails := [];
    var i := 0;
    while i < |order|
      invariant 0 <= i <= |order|
      invariant emails == Harvest(cx, mb, order[..i])
    {
      var id := order[i];
      HarvestAppend(cx, mb, order[..i], [id]);
      assert order[..i + 1] == order[..i] + [id];
      var rec := Record(cx, mb, id);
      if rec.Some? {
        emails := emails + [rec.value];
      }
      // otherwise the handler logs the failure and the loop goes on
      i := i + 1;
    }
    assert order[..i] == order;
  }

  /** One step of the batch loop: the ids from `i` on are the batch at `i`
      followed by the ids from the next batch on. */
  lemma {:induction false} CollectFrom(cx: Codecs, mb: Mailbox, ids: seq<Bytes>, k: int, i: nat)
    requires k > 0 && i < |ids|
    ensures Collect(cx, mb, ids[i..], k)
            == ProcessBatch(cx, mb, ids[i..Min(i + k, |ids|)]) + Collect(cx, mb, ids[Min(i + k, |ids|)..], k)
  {
    var rest := ids[i..];
    var m := Min(k, |rest|);
    assert rest[..m] == ids[i..Min(i + k, |ids|)];
    assert rest[m..] == ids[Min(i + k, |ids|)..];
  }

  /** The batch loop of `get_emails`: `for i in range(0, len(latest), k)`. */
  method FetchBatches(cx: Codecs, mb: Mailbox, latest: seq<Bytes>, k: int) returns (emails: seq<EmailRecord>)
    requires k > 0
    ensures emails == Collect(cx, mb, latest, k)
  {
    emails := [];
    var i := 0;
    assert latest[0..] == latest;
    while i < |latest|
      invariant 0 <= i <= |latest|
      invariant emails + Collect(cx, mb, latest[i..], k) == Collect(cx, mb, latest, k)
    {
      var next := Min(i + k, |latest|);
      var batchEmails := ProcessBatchLoop(cx, mb, latest[i..next]);
      CollectFrom(cx, mb, latest, k, i);
      emails := emails + batchEmails;
      i := next;
    }
    assert latest[i..] == [];
  }
}
