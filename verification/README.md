# Mail fetch pipeline — a Dafny model

This project models the fetch pipeline of a small Gmail desktop client
(`email_client.py`, with the settings of `config.py`):

- `get_emails(use_cache)` can answer from a time-boxed JSON cache.
  Otherwise it lists the inbox and keeps the most recent `MAX_EMAILS` ids.
  It fetches them in consecutive batches of `BATCH_SIZE`, and walks each
  batch back to front (`process_email_batch`).
- Every message that fails to fetch or parse is skipped.
- The result is written to the cache and returned. A failure on the session
  path returns an empty list instead.
- Each message becomes a record of five texts:
  - the id, decoded as strict UTF-8;
  - subject, sender and date, from `decode_email_header`;
  - the body, from `extract_email_body`.

The mail server, the file system and the clock are parameters: a `Mailbox`,
a `CacheFile` with a `WriteOutcome`, and explicit read and write times. The
character-set codecs (`bytes.decode`, strict and with replacement) are
oracles returning `None` where the call raises. The MIME parser and the
encoded-word splitter are likewise represented by what they return: a
`Message` and a header's `Segment`s.

Modules follow the pipeline:

- `Common`: bytes, `Option`, codecs, configuration and the shipped values
  300/20/5.
- `Mime`: parts, headers, messages, records.
- `Headers`: `decode_email_header`.
- `Bodies`: `extract_email_body`.
- `Cache`: `get_cache` and `save_cache`.
- `Batching`: which ids are kept and in what order they are visited.
- `Fetcher`: `process_email_batch` and `get_emails`.

The settings are unbounded integers, so the code's edge cases are
reproduced:

- `MAX_EMAILS = 0` keeps every id, because `ids[-0:]` is the whole list.
- A negative `MAX_EMAILS` drops the first ids.
- `BATCH_SIZE = 0` makes `range` raise, so the result is an empty list and
  the cache is not written.
- A negative `BATCH_SIZE` gives an empty loop, so an empty list IS written
  to the cache as a success.

Behaviours of the code that the model keeps as they are:

- `get_cache` catches only `json.JSONDecodeError` and `IOError`, so three
  cases escape it:
  - a file that is not valid UTF-8 (`UnicodeDecodeError`);
  - JSON that is not an object (`AttributeError` on `.get`);
  - a non-numeric timestamp (`TypeError` in the subtraction).

  `get_cache` runs outside `get_emails`' handler, so `get_emails` raises
  too (`Outcome.Raised`).
- The IMAP session is closed only on the success path. A failed close makes
  the call return `[]`.
- Header bytes tagged with a charset are decoded strictly. If that raises,
  the whole header falls back to its raw text. Untagged bytes are decoded as
  UTF-8 with replacement.
- In a multipart message, a part whose decode raises is passed over, and the
  scan goes on to later parts.
- `save_cache` opens the file with `'w'` and dumps non-ASCII text unescaped
  as UTF-8. A write that fails part-way (`DumpFails`) leaves a truncated
  file:
  - If it was cut between characters, the file no longer parses and the next
    read is a miss.
  - If it was cut inside a multi-byte character, the file is no longer valid
    UTF-8. Every later cached read then raises, until the file is replaced.

## Model

| member | source | states |
|---|---|---|
| `Headers.DecodeSegments` | email_client.py:146-155 | the segments accumulate to some text exactly when every segment's codec succeeds |
| `Headers.DecodeHeader` | email_client.py:139-157 | a missing or empty header is "None"; a header the splitter rejects is its raw text |
| `Headers.DecodeSegmentsJoin` | email_client.py:146-155 | when every segment decodes, the result is the in-order concatenation of the segment texts (front-to-back reference `Joined`) |
| `Headers.DecodeHeaderSpec` | email_client.py:139-157 | all three outcomes: "None" for an absent header, the joined segment texts when all decode, the raw text when any codec raises |
| `Headers.Utf8NeverFallsBack` | email_client.py:147-152 | with a UTF-8 replacement codec that never raises, a header whose bytes carry no charset always decodes to the joined texts |
| `Headers.MixedSegmentsExample` | email_client.py:144-155 | an encoded word followed by charset-less bytes reassembles into one string ("Café menu") |
| `Headers.DecodeHeaderScan` | email_client.py:139-157 | the loop with its early return computes the same text as the accumulation |
| `Bodies.ContainsIff` | email_client.py:114-117 | the attachment test is a substring test: it holds iff the word occurs at some index of the disposition text |
| `Bodies.ExtractBody` | email_client.py:128-133 | a single-part message without payload bytes has an empty body |
| `Bodies.FirstPlainTextSpec` | email_client.py:111-127 | the scan yields nothing iff no walked part is eligible, otherwise the text of the first eligible part |
| `Bodies.LaterPartsIgnored` | email_client.py:119-125 | parts after the first eligible one never influence the body |
| `Bodies.ExtractBodySpec` | email_client.py:107-137 | every case: empty body when no part qualifies, the first eligible part's text, the placeholder when a single payload fails to decode, the decoded payload otherwise |
| `Bodies.AttachmentSkippedExample` | email_client.py:112-125 | a text/plain part marked as an attachment is skipped and the later text part is chosen |
| `Bodies.HtmlOnlyExample` | email_client.py:111-127 | a multipart message with only an HTML part has an empty body |
| `Bodies.ExtractBodyScan` | email_client.py:107-137 | the loop with `continue`, swallowed exception and `break` agrees with the first-eligible-part reading |
| `Cache.GetCache` | email_client.py:18-35 | a hit only comes from a parsed object whose list is present and whose numeric or missing stamp is within the window; escapes only come from a file that was read |
| `Cache.SaveCache` | email_client.py:37-47 | a write raises exactly when it does not complete; a write that fails before opening keeps the old file; one that fails mid-dump leaves an unparsable file, or an undecodable one when cut inside a character |
| `Cache.GetCacheSpec` | email_client.py:18-35 | exact conditions for a miss, a hit and an escaping exception |
| `Cache.SaveThenGet` | email_client.py:22-47 | round trip: a read after a completed write returns the written list while within the window, and misses afterwards |
| `Cache.FailedSaveReads` | email_client.py:37-47 | a failed write leaves the previous read result; a truncated file reads as a miss, or raises when cut inside a multi-byte character |
| `Cache.ShippedExpiryBoundary` | config.py:12 | with the five-minute window an entry is served 300 seconds after capture and missed at 301 |
| `Batching.SliceStart` | email_client.py:65 | Python's slice start: clamped for non-negative offsets, counted from the end for negative ones |
| `Batching.Latest` | email_client.py:65 | the kept ids are a suffix of the listed ids |
| `Batching.LatestSpec` | email_client.py:65 | the last min(n, max) ids for a positive limit; all ids for a limit of 0; the first -max ids dropped for a negative limit |
| `Batching.Chunks` | email_client.py:68-69 | the batches concatenate back to the ids; each is non-empty and at most the batch size, and all but the last are full |
| `Batching.BatchOrder` | email_client.py:68-71 | the visiting order has one entry per kept id |
| `Batching.ReverseKeepsElements` | email_client.py:89 | reversing a batch keeps each id the same number of times |
| `Batching.BatchOrderPermutes` | email_client.py:68-89 | every kept id is visited exactly once: the visiting order is a permutation |
| `Batching.BatchOrderIsReversedChunks` | email_client.py:68-89 | the visiting order is the batches of the range loop, each reversed, joined in order |
| `Batching.BatchOrderAt` | email_client.py:68-89 | position by position: inside the batch starting at a range value, the r-th visited id is the r-th from that batch's end |
| `Batching.SevenIdsInBatchesOfThree` | email_client.py:68-89 | ids 1..7 in batches of 3 are visited as 3,2,1,6,5,4,7 |
| `Fetcher.Record` | email_client.py:90-101 | a record exists exactly when the message fetches and the raw id decodes as strict UTF-8 (header and body decoding never raise), and its id is that decoding |
| `Fetcher.Harvest` | email_client.py:89-105 | at most one record per id, and exactly one per id iff every message succeeds |
| `Fetcher.ProcessBatch` | email_client.py:85-105 | a batch yields at most as many records as it has ids |
| `Fetcher.Collect` | email_client.py:66-71 | the batch loop yields at most as many records as kept ids |
| `Fetcher.FetchFromServer` | email_client.py:57-83 | the session path always returns and contacts the server; any non-empty result is the batch loop's records over the kept ids, and exactly what is now in the cache, stamped with the write time |
| `Fetcher.GetEmails` | email_client.py:49-83 | the call raises exactly when `use_cache` is set and the cache read raises, leaving the file alone; an answer without contacting the server is a non-empty cache hit, returned unchanged |
| `Fetcher.HarvestAppend` | email_client.py:89-104 | skipping failures commutes with concatenating id lists |
| `Fetcher.FailureIsSkipped` | email_client.py:90-103 | one failing message drops out and does not stop the messages after it |
| `Fetcher.HarvestAllSucceed` | email_client.py:89-105 | when every message succeeds there is one record per id, in visiting order |
| `Fetcher.HarvestOrigin` | email_client.py:89-105 | every record is the record of one of the ids |
| `Fetcher.CollectIsHarvestOfBatchOrder` | email_client.py:66-71 | the batch loop equals the skip rule applied to the batch visiting order |
| `Fetcher.CacheHitSkipsServer` | email_client.py:51-55 | a non-empty cache hit is returned without contacting the server |
| `Fetcher.MissGoesToServer` | email_client.py:49-57 | `use_cache=False`, a miss or an empty cached list all go to the server |
| `Fetcher.SuccessIsCached` | email_client.py:73-79 | a successful fetch returns the collected records, writes exactly them, and a read within the window gets them back |
| `Fetcher.FailuresReturnNothing` | email_client.py:57-83 | a session that does not open, a zero batch size, a failed close or a failed write all return an empty list |
| `Fetcher.TornWriteKeepsRaising` | email_client.py:46-55 | a fetch whose cache write is cut inside a multi-byte character returns nothing, and every later cached call raises |
| `Fetcher.NegativeBatchSizeCachesEmpty` | email_client.py:65-79 | a negative batch size fetches nothing yet writes an empty list as a success |
| `Fetcher.CollectOrigin` | email_client.py:66-71 | every record the batch loop yields is that of one of the ids it was given |
| `Fetcher.TwentyFiveIdsKeepLastTwenty` | email_client.py:65 | with the shipped settings and 25 listed ids only the last 20 are ever fetched |
| `Fetcher.AllSucceedOrder` | email_client.py:66-71 | when every message succeeds the batch loop yields one record per id, in batch visiting order |
| `Fetcher.ProcessBatchLoop` | email_client.py:85-105 | the reversed loop with its per-message handler computes `ProcessBatch` |
| `Fetcher.FetchBatches` | email_client.py:66-71 | the range loop over batches computes `Collect` |

## Left out

- `send_email` (email_client.py:159-176) is not modelled. It is the SMTP send path, outside the fetch pipeline.
- The IMAP and SMTP protocols are not modelled. A session is reduced to four facts: whether it opens, which ids it lists, which messages fetch, and whether it closes.
- `create_cache_dir` is not modelled. It is called outside the read's handler, so a failure there would escape too. The file system is abstracted to the `CacheFile` shapes.
- JSON values are reduced to the shapes the code distinguishes: no file, unparsable, not UTF-8, a non-object, and an object with a missing, numeric or non-numeric timestamp. A cached `emails` value that is not a list of records is not modelled.
- Fractional seconds are not modelled. Time is an integer number of seconds.
- Logging and the progress `print`s are not modelled. They do not affect results.
- The MIME parser, `decode_header`'s splitter and the codecs are not modelled. They are oracles.
- `ui.py` and `main.py` are not part of this model. They are the window host and the presentation layer.
- Batching.BatchOrder: its own contract states only the length. The permutation and position facts are separate lemmas: `BatchOrderPermutes`, `BatchOrderAt` and `BatchOrderIsReversedChunks`.
- Fetcher.ProcessBatch: its own contract states only the bound. The skip rule is stated by `Harvest`, `FailureIsSkipped` and `HarvestAllSucceed`.
