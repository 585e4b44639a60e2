# IPTV source pipeline: a verified model of its data logic

This project models, in Dafny, the logic of an IPTV playlist-validation pipeline. The pipeline is a set of Python scripts. It downloads playlists, converts and merges channel lists, and cuts the merged table into chunks. It checks each stream for reachability, decodability, perceptual-hash fakes and timestamp monotonicity, and keeps bounded histories of hashes. The model covers the part that sits between the network and subprocess calls. Every external call (HTTP requests, `ffprobe`, `ffmpeg`, image decoding) becomes an input value or a function parameter that supplies its outcome.

Each script is one module. Two helper modules are shared:

- `Common`: `Option`, table cells and rows, and filtering with its counting lemmas.
- `Text`: Python string operations on `seq<char>`, such as `strip`, `startswith`, `find`, `split`, `join`, `os.path.splitext` and string ordering.

| module | file | script |
|---|---|---|
| `Download` | download.dfy | `scripts/1_download_m3u.py` |
| `M3uToTxt` | m3u_to_txt.dfy | `scripts/2_m3u_to_txt.py` |
| `MergeSources` | merge_sources.dfy | `scripts/3_merge_local_sources.py` |
| `SplitMerge` | split_merge.dfy | `scripts/4_split_merge.py` |
| `FastScan` | fast_scan.dfy | `scripts/6.1_fast_scan.py` |
| `DeepScan` | deep_scan.dfy | `scripts/6.2_deep_scan.py` |
| `FinalScan` | final_scan.dfy | `scripts/6.3_final_scan.py` |
| `HashScan` | hash_scan.dfy | `scripts/6.3_hash_scan.py` |
| `PtsCheck` | pts_check.dfy | `scripts/6.31_pts_check.py` |
| `MergeHash` | merge_hash.dfy | `scripts/7.1_merge_hash.py` |
| `MergeDeepScan` | merge_deep_scan.dfy | `scripts/7.2_merge_deep_scan.py` |
| `MergeCache` | merge_cache.dfy | `scripts/D_merge_cache.py` |

The source changes state step by step: a dict updated inside nested loops, a list built by appends, a retry loop with a counter. The model follows the same form. Each such loop is a `method` with loop invariants. The method's `ensures` ties its result to a specification function, and lemmas prove the promised properties of that function. Every mutated collection in these scripts is a local variable of one function, so the methods take values and return values, and the model has no classes.

## Model

| member | source | states |
|---|---|---|
| `MergeHash.Record` | scripts/7.1_merge_hash.py:55-65 | Writing one URL's result and then deleting the sorted keys before the last six yields `Insert`: the old history with the tag written and then trimmed to its newest `MAX_HISTORY` tags |
| `MergeHash.DropOldestIsTrimmed` | scripts/7.1_merge_hash.py:62-65 | Deleting the first `len - 6` keys of an ascending enumeration of a history leaves exactly `Trimmed` of that history |
| `MergeHash.TrimmedSize` | scripts/7.1_merge_hash.py:62-65 | Trimming keeps `min(6, n)` of a history's `n` tags |
| `MergeHash.TrimmedKeepsGreatest` | scripts/7.1_merge_hash.py:63-65 | Every tag that trimming keeps sorts after every tag it drops |
| `MergeHash.InsertCap` | scripts/7.1_merge_hash.py:59-65 | After writing, a URL holds at most 6 tags, and exactly 6 when the old tags plus the new one number 6 or more |
| `MergeHash.InsertExistingTag` | scripts/7.1_merge_hash.py:59 | Rewriting a tag that is already present never increases the URL's tag count |
| `MergeHash.InsertValues` | scripts/7.1_merge_hash.py:59-65 | Only the written tag is new. A surviving written tag holds the new result, and every other surviving tag keeps its old value |
| `MergeHash.InsertTagSurvives` | scripts/7.1_merge_hash.py:63-65 | The written tag survives iff fewer than 6 existing tags sort after it, so a manual `--time-tag` older than six existing tags is evicted at once |
| `MergeHash.InsertFresh` | scripts/7.1_merge_hash.py:55-59 | A URL seen for the first time gets a history holding only `{time_tag: result}` |
| `MergeHash.NewestInSorted` | scripts/7.1_merge_hash.py:63-64 | In an ascending enumeration of the tags, the survivors are exactly the last six positions (`sorted_keys[-6:]`) |
| `MergeHash.KeptIffLate` | scripts/7.1_merge_hash.py:63-64 | Position `m` of an ascending enumeration survives iff `m + 6 >= len` |
| `MergeHash.NewerInSorted` | scripts/7.1_merge_hash.py:63 | The tags greater than `s[i]` are the enumeration's suffix after `i` and number `len - 1 - i` |
| `MergeHash.SmallIsTrimmed` | scripts/7.1_merge_hash.py:62 | A history of at most 6 tags is left as it is |
| `MergeHash.MergeChunk` | scripts/7.1_merge_hash.py:53-65 | The per-URL loop over a chunk yields `MergedChunk`. Every URL of the chunk is present with at most 6 tags, and every other URL is unchanged |
| `MergeHash.MergedChunkEffect` | scripts/7.1_merge_hash.py:53-65 | `MergedChunk` caps every URL of the chunk at 6 tags and leaves every other URL's presence and history unchanged |
| `MergeHash.MergedAllUntouched` | scripts/7.1_merge_hash.py:53-65 | A URL that appears in no chunk keeps its record exactly, even one that already holds more than 6 tags |
| `MergeHash.MergedAllCapped` | scripts/7.1_merge_hash.py:53-65 | A URL that appears in some chunk ends present with at most 6 tags |
| `MergeHash.Run` | scripts/7.1_merge_hash.py:18-65 | `main` writes nothing iff no file name ends with `.json`. Otherwise it writes the `.json` chunks merged in listing order into the loaded store, and a missing or unparseable total file loads as the empty store |
| `MergeHash.JsonChunksAppend` | scripts/7.1_merge_hash.py:39-42 | One more directory entry adds its chunk iff its name ends with `.json` |
| `MergeCache.RecentExisting` | scripts/D_merge_cache.py:44-50 | The dates merged are exactly the recent dates that name an all-digit directory of the cache, and there are at most as many as recent dates |
| `MergeCache.RecentExistingDescending` | scripts/D_merge_cache.py:47-50 | Filtering the newest-first recent list keeps it strictly newest first |
| `MergeCache.LastMergedIsOldest` | scripts/D_merge_cache.py:124-126 | The recorded `last_merged_date`, the last element of the recent-existing list, is the oldest recent date present |
| `MergeCache.PruneDates` | scripts/D_merge_cache.py:68-71 | One URL's pruning loop keeps exactly its date buckets that are in the three-day window, with their contents unchanged |
| `MergeCache.Prune` | scripts/D_merge_cache.py:66-73 | After pruning, every remaining date is in the window and keeps its bucket, a URL with no date left is deleted, and every in-window bucket survives |
| `MergeCache.MergeTimepoints` | scripts/D_merge_cache.py:98-104 | Each timepoint of a chunk entry overwrites the bucket's value with the four fields phash/ahash/dhash/error, and every other timepoint keeps its value |
| `MergeCache.MergeFile` | scripts/D_merge_cache.py:94-104 | Merging one chunk file gives every URL of the file a bucket for the date and leaves its other dates and every other URL unchanged |
| `MergeCache.MergedFileEffect` | scripts/D_merge_cache.py:94-104 | The same effect, stated of the specification `MergedFile` |
| `MergeCache.MergeFileLoop` | scripts/D_merge_cache.py:94-104 | The URL loop with `setdefault` and nested assignment computes `MergedFile` |
| `MergeCache.UnionIdempotent` | scripts/D_merge_cache.py:99 | Overwriting a bucket twice with the same entries is overwriting it once |
| `MergeCache.MergedUrlIdempotent` | scripts/D_merge_cache.py:95-104 | Re-merging the same timepoints into a URL's dates changes nothing |
| `MergeCache.MergedFileIdempotent` | scripts/D_merge_cache.py:94-104 | Re-merging the same chunk file adds no entries and changes nothing |
| `MergeCache.SkippedFileIgnored` | scripts/D_merge_cache.py:81-92 | A file not ending in `_cache.json`, or one that fails to load, has no effect on the merge of the files around it |
| `MergeCache.MergeDateDir` | scripts/D_merge_cache.py:76-104 | The loop over one date directory's files merges the loadable `_cache.json` files in listing order |
| `MergeCache.MergedFileInWindow` | scripts/D_merge_cache.py:76-96 | Merging a file for a recent date keeps every date of every URL in the window |
| `MergeCache.MergedFilesInWindow` | scripts/D_merge_cache.py:76-104 | Merging a directory for a recent date keeps the store in the window |
| `MergeCache.MergedDatesInWindow` | scripts/D_merge_cache.py:76-104 | Merging any list of recent dates keeps the store in the window |
| `MergeCache.WindowBound` | scripts/D_merge_cache.py:47-76 | A URL of a store in the window has at most as many date buckets as there are recent dates (three) |
| `MergeCache.FinalInWindow` | scripts/D_merge_cache.py:66-104 | After pruning and merging, every URL has only recent dates and at most three of them |
| `MergeCache.KeysIn` | scripts/D_merge_cache.py:112-114 | The timepoints emitted are exactly those of `TIME_KEYS` that the bucket holds |
| `MergeCache.PickKeys` | scripts/D_merge_cache.py:111-114 | The timepoint loop emits the bucket's keys in `TIME_KEYS` order, each with its bucket value |
| `MergeCache.OrderTimepoints` | scripts/D_merge_cache.py:111-115 | A bucket is written in the order 0811, 1612, 2113, and any other timepoint is dropped |
| `MergeCache.OrderDates` | scripts/D_merge_cache.py:109-116 | A URL's dates are written in ascending order, each with its ordered bucket |
| `MergeCache.OrderUrls` | scripts/D_merge_cache.py:107-116 | The output lists the URLs in ascending order, each with its ordered dates |
| `MergeCache.OrderedBucketUnique` | scripts/D_merge_cache.py:111-114 | The timepoint order leaves no freedom: two orderings of a bucket are equal |
| `MergeCache.OrderedDatedUnique` | scripts/D_merge_cache.py:109-116 | Two date orderings of one URL's buckets are equal |
| `MergeCache.OrderedStoreUnique` | scripts/D_merge_cache.py:107-116 | The written document is determined by the merged store |
| `MergeCache.MergeCaches` | scripts/D_merge_cache.py:37-126 | The outcomes are: no cache directory, no recent date directory (nothing written), a corrupt total file (the run fails in `json.load`), or the document ordered from the pruned and merged store. The recorded date is the last recent-existing one, and every URL of the output has between one and three dates, all recent |
| `FinalScan.XorZeroIff` | scripts/6.3_final_scan.py:65-66 | `a ^ b` is 0 iff `a == b`, with XOR defined bit by bit on unbounded naturals |
| `FinalScan.XorCommutes` | scripts/6.3_final_scan.py:65-66 | `a ^ b == b ^ a` |
| `FinalScan.PopCountZeroIff` | scripts/6.3_final_scan.py:66 | `bit_count()` is 0 iff the number is 0 |
| `FinalScan.HammingZeroIff` | scripts/6.3_final_scan.py:65-66 | `hamming(a, b)` is 0 iff `a == b` |
| `FinalScan.HammingSymmetric` | scripts/6.3_final_scan.py:65-66 | `hamming` is symmetric |
| `FinalScan.XorBound` | scripts/6.3_final_scan.py:65-66 | The XOR of two `n`-bit numbers is an `n`-bit number |
| `FinalScan.PopCountBound` | scripts/6.3_final_scan.py:66 | An `n`-bit number has at most `n` set bits |
| `FinalScan.HammingBound` | scripts/6.3_final_scan.py:65-66 | The distance between two `n`-bit hashes is at most `n` |
| `FinalScan.XorComplement` | scripts/6.3_final_scan.py:65-66 | An `n`-bit number XOR its `n`-bit complement has all `n` bits set |
| `FinalScan.PopCountAllOnes` | scripts/6.3_final_scan.py:66 | `2^n - 1` has `n` set bits |
| `FinalScan.HammingComplement` | scripts/6.3_final_scan.py:65-66 | A hash and its complement are at distance `n` |
| `FinalScan.SimilarityRange` | scripts/6.3_final_scan.py:124-127 | For 64-bit hashes or `None`, `similarity_hash` lies in [0, 1]; for two hashes it is 1 iff they are equal |
| `FinalScan.SimilaritySymmetric` | scripts/6.3_final_scan.py:124-127 | `similarity_hash` is symmetric |
| `FinalScan.SimilarityComplement` | scripts/6.3_final_scan.py:124-127 | A 64-bit hash against its 64-bit complement has similarity 0 |
| `FinalScan.Sims` | scripts/6.3_final_scan.py:131-134 | The list of per-algorithm similarities is empty iff no algorithm of phash/ahash/dhash is present in both hash sets |
| `FinalScan.SimsSymmetric` | scripts/6.3_final_scan.py:131-134 | The list of per-algorithm similarities is the same with the arguments swapped |
| `FinalScan.AverageSymmetric` | scripts/6.3_final_scan.py:130-135 | `average_similarity` is symmetric |
| `FinalScan.AverageNoneShared` | scripts/6.3_final_scan.py:135 | With no algorithm shared, `average_similarity` is 0 |
| `FinalScan.SimsRange` | scripts/6.3_final_scan.py:131-134 | For 64-bit hashes the similarities sum to between 0 and their count |
| `FinalScan.AverageRange` | scripts/6.3_final_scan.py:130-135 | For 64-bit hashes `average_similarity` lies in [0, 1] |
| `FinalScan.AverageSelf` | scripts/6.3_final_scan.py:130-135 | A complete hash set against itself has average similarity 1 |
| `FinalScan.SimsSelf` | scripts/6.3_final_scan.py:131-134 | A complete hash set against itself gives the similarities [1, 1, 1] |
| `FinalScan.FromBitsBits` | scripts/6.3_final_scan.py:33-35 | Shifting in bits most significant first gives a number below `2^len` whose bit `len - 1 - i` is the `i`-th bit shifted in |
| `FinalScan.FromBitsAppend` | scripts/6.3_final_scan.py:35 | Shifting in one more bit is `(bits << 1) \| b` |
| `FinalScan.AverageHash` | scripts/6.3_final_scan.py:28-36 | Over an 8x8 grid of integer pixels the loop builds a 64-bit number whose bit for pixel `i`, most significant first, is set iff that pixel is strictly above the grid's mean |
| `FinalScan.DifferenceHash` | scripts/6.3_final_scan.py:52-62 | Over a 9x8 grid the nested loop builds a 64-bit number, row-major from the most significant bit; the bit of `(row, col)` is set iff that pixel is strictly above its right neighbour |
| `FinalScan.DHashMeaning` | scripts/6.3_final_scan.py:57-61 | The difference-hash bit sequence, read as a number, has the bit meaning above |
| `FinalScan.DHashBitAt` | scripts/6.3_final_scan.py:57-61 | Bit `8 * row + col` of the sequence compares pixel `(row, col)` with `(row, col + 1)` |
| `FinalScan.FirstSuccess` | scripts/6.3_final_scan.py:92-96 | The attempt that succeeds is the first successful one below `retry`, and none means every attempt failed |
| `FinalScan.GrabbedBounds` | scripts/6.3_final_scan.py:89-97 | At most one frame per timepoint, each from a listed timepoint, and at most `retry` attempts per timepoint |
| `FinalScan.GrabAt` | scripts/6.3_final_scan.py:92-96 | The retry loop at one timepoint keeps the frame of the first successful attempt (`FrameAt`) after `Attempts` tries, and gets a frame exactly when some attempt below `retry` succeeds |
| `FinalScan.GrabFrameMulti` | scripts/6.3_final_scan.py:89-97 | The retry loop returns `Grabbed`: the first successful frame of each timepoint, in timepoint order. It makes `Attempts` tries per timepoint, stopping at the first success |
| `FinalScan.MaxSimilarityUnique` | scripts/6.3_final_scan.py:176-181 | The maximum similarity over cached entries and frames is determined by them |
| `FinalScan.RepeatedFrameIsMax` | scripts/6.3_final_scan.py:176-181 | When a captured frame's complete hashes equal a cached entry, the maximum is at least 1 |
| `FinalScan.MaxOverFrames` | scripts/6.3_final_scan.py:180-181 | The innermost loop raises `max_sim` to the largest similarity of a frame to one cached entry, or leaves it |
| `FinalScan.MaxOverTimepoints` | scripts/6.3_final_scan.py:178-181 | The middle loop does the same over all timepoints of one date |
| `FinalScan.MaxOverDates` | scripts/6.3_final_scan.py:176-181 | The triple loop yields the maximum of 0 and every similarity of a frame to a cached entry |
| `FinalScan.HashFrames` | scripts/6.3_final_scan.py:158-164 | One fingerprint set per grabbed frame, in frame order, each the three hashes of that frame |
| `FinalScan.ProcessOne` | scripts/6.3_final_scan.py:140-190 | No frame gives status "error", errors ["all_grab_failed"], not fake, similarity 0. Frames but no (or an empty) cache entry give "ok", not fake, similarity 1. Otherwise the result is "ok", similarity is the maximum over cached entries and frames, and it is fake iff that maximum reaches the threshold; `is_loop` is always false |
| `FinalScan.HexDigitValue` | scripts/6.3_final_scan.py:115-117 | A hexadecimal digit has a value below 16 |
| `FinalScan.HexChar` | scripts/6.3_final_scan.py:115-117 | The digit written for a value below 16 reads back as that value |
| `FinalScan.ToHex` | scripts/6.3_final_scan.py:115-117 | The hexadecimal text of a number consists of hexadecimal digits only |
| `FinalScan.HexRoundTrip` | scripts/6.3_final_scan.py:115-117 | `int(hex_text, 16)` of a number's hexadecimal text is that number |
| `FinalScan.HexLeadingZero` | scripts/6.3_final_scan.py:115-117 | A leading zero digit does not change the value |
| `FinalScan.HexLeadingZeros` | scripts/6.3_final_scan.py:115-117 | Any number of leading zero digits leaves the value unchanged, and a padded string is still hexadecimal |
| `FinalScan.DecodeHash` | scripts/6.3_final_scan.py:115-117 | A falsy cell decodes to `None`; a decoded value comes from a non-empty string of hexadecimal digits and is its value; anything else fails. `int(..., 16)` also accepts the forms listed under "## Left out" |
| `FinalScan.DecodeEncoded` | scripts/6.3_final_scan.py:115-117 | A hash written as lower-case hexadecimal, with any number of leading zeros (`str()` of an image hash pads to 16 digits), decodes back to itself |
| `FinalScan.DecodeBucket` | scripts/6.3_final_scan.py:113-118 | Decoding a bucket fails iff one of its entries fails; otherwise every timepoint keeps its key and gets its decoded hashes |
| `FinalScan.DecodeDated` | scripts/6.3_final_scan.py:111-118 | The same for all buckets of one URL |
| `FinalScan.LoadCacheAdvanced` | scripts/6.3_final_scan.py:102-119 | A missing file loads as the empty cache and a corrupt file fails. Otherwise loading fails iff some entry fails to decode under `DecodeHash` (plain hexadecimal digits only), and succeeds with every URL, date and timepoint kept and decoded |
| `PtsCheck.Kept` | scripts/6.31_pts_check.py:50-60 | The kept timestamps are exactly the parseable `pkt_pts_time` values of the frames; missing or unparseable ones are skipped, so there are at most as many as frames |
| `PtsCheck.CollectPts` | scripts/6.31_pts_check.py:51-60 | The append loop builds `Kept`, in frame order |
| `PtsCheck.BackwardBound` | scripts/6.31_pts_check.py:70-73 | A list of `n >= 1` timestamps has at most `n - 1` backward steps |
| `PtsCheck.BackwardZeroIff` | scripts/6.31_pts_check.py:70-73 | There is no backward step iff the timestamps are strictly increasing |
| `PtsCheck.MonotonicExamples` | scripts/6.31_pts_check.py:69-82 | [0,1,2,3,4] has no backward step, [0,1,0.5,2,3] has one (still monotonic), [0,1,0.5,2,1.5] has two (not monotonic) |
| `PtsCheck.BackwardSnoc` | scripts/6.31_pts_check.py:71-73 | One more timestamp adds a backward step iff it is not above the previous one |
| `PtsCheck.CountBackward` | scripts/6.31_pts_check.py:70-73 | The counting loop returns the number of positions `i >= 1` with `pts[i] <= pts[i-1]` |
| `PtsCheck.Max` | scripts/6.31_pts_check.py:75 | `max` of a non-empty list is an element at least every element |
| `PtsCheck.Min` | scripts/6.31_pts_check.py:75 | `min` of a non-empty list is an element at most every element |
| `PtsCheck.ProbePts` | scripts/6.31_pts_check.py:29-84 | A timeout, a non-zero exit (with stripped stderr) and unparseable JSON map to their reasons. Fewer than 5 kept timestamps give "too_few_pts" with the kept count. Otherwise the result is ok, with `pts_count = n`, the backward count (at most `n - 1`, 0 iff strictly increasing), monotonic iff at most one backward step, span `max - min >= 0`, and the first `min(10, n)` timestamps as samples |
| `FastScan.AcceptedExamples` | scripts/6.1_fast_scan.py:16-31 | The status test accepts 403, 503 and 429 and rejects 404, 499 and 600 |
| `FastScan.FetchUrl` | scripts/6.1_fast_scan.py:26-39 | A request that raises gives `(False, None, None)`. A response gives its status, is ok iff the status is in {200, 206, 301, 302, 403, 429} or in 500..599, and carries an rtt iff it is ok |
| `FastScan.FirstAccepted` | scripts/6.1_fast_scan.py:52-54 | The attempt that returns is the first accepted one below `RETRY_LIMIT`, and none means no attempt was accepted |
| `FastScan.Backoff` | scripts/6.1_fast_scan.py:60 | The sleep after a failed attempt is at least 0.2 s |
| `FastScan.BackoffIncreasing` | scripts/6.1_fast_scan.py:60 | The sleep `0.2 * (k + 1)` grows with the attempt number |
| `FastScan.Backoffs` | scripts/6.1_fast_scan.py:52-60 | The sleeps of `n` failed attempts are `Backoff(0)` .. `Backoff(n - 1)` in order |
| `FastScan.CheckedKeepsRow` | scripts/6.1_fast_scan.py:55-64 | The result is the row plus 检测时间 and 状态码, with every other field unchanged |
| `FastScan.CheckedOkIff` | scripts/6.1_fast_scan.py:52-65 | The result is ok (检测时间 not "") iff some attempt was accepted, and then its 状态码 is an accepted status; otherwise 状态码 is the last attempt's status, possibly None |
| `FastScan.CheckSource` | scripts/6.1_fast_scan.py:46-65 | The retry loop returns `Checked`. It makes at most 2 attempts and stops at the first accepted one, sleeping after every failed attempt, the final one included |
| `FastScan.Results` | scripts/6.1_fast_scan.py:92-104 | One result per input row, each `Checked` with that row's own responses |
| `FastScan.SplitComplete` | scripts/6.1_fast_scan.py:110-117 | The ok and not lists together hold every result exactly once, and a result is in exactly one of them |
| `FastScan.RunAll` | scripts/6.1_fast_scan.py:72-119 | `ok_rows` are the results with 检测时间 not "" and `not_rows` the others, an exact partition. The output columns are the input's followed by 检测时间 and 状态码 |
| `FastScan.SplitOrderFree` | scripts/6.1_fast_scan.py:97-117 | The two lists do not depend, as multisets, on the order in which results complete |
| `FastScan.ReadCsv` | scripts/6.1_fast_scan.py:155-166 | Exactly the rows whose 地址 starts with "http" are kept, in file order |
| `DeepScan.SlashRate` | scripts/6.2_deep_scan.py:47-48 | The rate text used, `avg_frame_rate` or else `r_frame_rate`, is only taken when it contains "/" |
| `DeepScan.Scanned` | scripts/6.2_deep_scan.py:41-53 | The stream loop never sets has_audio, duration or bit_rate |
| `DeepScan.ScannedVideoIff` | scripts/6.2_deep_scan.py:41-46 | has_video holds iff some stream has codec_type "video", and without one every field stays at its initial value |
| `DeepScan.ScannedLastVideo` | scripts/6.2_deep_scan.py:41-46 | Codec, width and height come from the last video stream, because the loop overwrites them |
| `DeepScan.ScannedFrameRate` | scripts/6.2_deep_scan.py:47-53 | The frame rate comes from the last video stream that has a rate with "/" |
| `DeepScan.ScannedNoFrameRate` | scripts/6.2_deep_scan.py:47-53 | With no such stream, the frame rate stays None |
| `DeepScan.ParseProbe` | scripts/6.2_deep_scan.py:32-59 | An empty or missing probe gives no video, no audio and every other field None. Otherwise has_video holds iff some stream is video and has_audio iff some stream is audio |
| `DeepScan.Diagnostics` | scripts/6.2_deep_scan.py:72-113 | Every branch adds the same ten columns, with has_video and error as given |
| `DeepScan.ProbeOne` | scripts/6.2_deep_scan.py:61-114 | `probe_one` gives ok iff the probe succeeded and has a video stream |
| `DeepScan.ProbeResultColumns` | scripts/6.2_deep_scan.py:67-114 | The result is the input row plus the ten columns, with the input's other columns unchanged. It is ok iff the probe succeeded with video, and then error is "". A video-less probe gets "no_video_stream", and a failed probe gets its error or "unknown" |
| `DeepScan.ClassifyError` | scripts/6.2_deep_scan.py:155-160 | "" reads 成功, and any other error containing "timeout" reads 超时 |
| `DeepScan.ClassifyErrorPassThrough` | scripts/6.2_deep_scan.py:155-169 | An error comes back unchanged iff it matches none of the six tests; a matched one gets one of the six labels |
| `DeepScan.ProbeResultLabel` | scripts/6.2_deep_scan.py:155-169 | An ok result is labelled 成功, a video-less one 无视频流, and a failed probe by its error |
| `DeepScan.FormatResolution` | scripts/6.2_deep_scan.py:145-150 | The resolution is non-empty iff width and height are both truthy, and then it is `"{w}x{h}"` |
| `DeepScan.ResolutionOfResult` | scripts/6.2_deep_scan.py:145-150 | An ok result with positive width and height shows as `"WxH"` in decimal |
| `DeepScan.FormatAudio` | scripts/6.2_deep_scan.py:152-153 | 有音频 iff has_audio is truthy, else 无音频 |
| `DeepScan.OutRow` | scripts/6.2_deep_scan.py:180-186 | The row written is the result plus the six readable columns |
| `DeepScan.OutRowCells` | scripts/6.2_deep_scan.py:180-186 | The readable columns leave the result's own columns unchanged and carry the error label and the audio label |
| `DeepScan.WriteRowRaising` | scripts/6.2_deep_scan.py:173-187 | The writer as configured raises iff the row holds a key outside the header |
| `DeepScan.WriteRaisesOnResults` | scripts/6.2_deep_scan.py:173-187 | As written, every result row (it holds has_video, which the header lacks) makes `writerow` raise |
| `DeepScan.WriteRow` | scripts/6.2_deep_scan.py:173-187 | The writer with extra keys ignored writes one cell per header column: the row's value, or "" when missing |
| `DeepScan.WrittenRow` | scripts/6.2_deep_scan.py:180-187 | A written line has the input columns unchanged and then the six readable ones, the label first and the audio label fifth |
| `DeepScan.WrittenResult` | scripts/6.2_deep_scan.py:180-187 | The same for every probe result: the input columns pass through unchanged |
| `DeepScan.Lines` | scripts/6.2_deep_scan.py:179-197 | One written line per result, in order, each written by the corrected writer that ignores extra keys |
| `DeepScan.ProbeResults` | scripts/6.2_deep_scan.py:127 | One probe result per row |
| `DeepScan.ProbeAll` | scripts/6.2_deep_scan.py:118-132 | The probing loop yields `ProbeResults` |
| `DeepScan.DeepScan` | scripts/6.2_deep_scan.py:116-199 | The output header is the input columns plus the six new ones. Ok results go to one file and the rest to the other, so every row lands in exactly one. The rows are written by the corrected writer of the second Findings row, which ignores extra keys |
| `HashScan.FirstFailure` | scripts/6.3_hash_scan.py:68-73 | An attempt stops at its first failed timepoint, and none fails when every timepoint gives hashes |
| `HashScan.FirstGood` | scripts/6.3_hash_scan.py:63-75 | The attempt that ends the loop is the first one in which every timepoint succeeds |
| `HashScan.Column` | scripts/6.3_hash_scan.py:68-73 | A successful attempt fills each hash list with one value per entry of `GRAB_TIMES` |
| `HashScan.ProcessedAllOrNothing` | scripts/6.3_hash_scan.py:63-89 | With `retries >= 0`, the three lists have 3 entries each. Either all are filled and error is None, or all are None and error is set. Success means some attempt in `0..retries` succeeded completely |
| `HashScan.ProcessedFromFirstGood` | scripts/6.3_hash_scan.py:63-75 | The hashes kept are those of the first fully successful attempt, in `GRAB_TIMES` order. The lists are cleared at each attempt, so nothing survives from a failed one |
| `HashScan.ProcessedWaits` | scripts/6.3_hash_scan.py:76-79 | There are at most `retries` one-second waits: one between attempts and none after the last |
| `HashScan.CaptureAttempt` | scripts/6.3_hash_scan.py:65-77 | One attempt fails exactly when some offset fails to capture, and then carries the message of the first failing offset; otherwise it holds the three hash columns of that attempt, in `GRAB_TIMES` order |
| `HashScan.ProcessUrl` | scripts/6.3_hash_scan.py:58-89 | The retry loop with its cleared lists yields `Processed` (the record and the number of waits) |
| `HashScan.Addresses` | scripts/6.3_hash_scan.py:99-100 | One stripped 地址 per row, in order |
| `HashScan.UrlsAreHttp` | scripts/6.3_hash_scan.py:99-102 | Every URL read is stripped and starts with "http", and every row whose stripped 地址 starts with "http" contributes it |
| `HashScan.ReadUrls` | scripts/6.3_hash_scan.py:96-102 | The reading loop yields `Urls` |
| `HashScan.ProcessAll` | scripts/6.3_hash_scan.py:106-111 | One record per task, in address order, each the processed record of that task's attempts |
| `HashScan.HashScan` | scripts/6.3_hash_scan.py:96-111 | The results hold exactly one entry per URL read. Each entry is the processed record of that URL's last task |
| `M3uToTxt.SaveRow` | scripts/2_m3u_to_txt.py:12-22 | A saved row has the nine `OUTPUT_FIELDS` in order: the channel's value for each field, or "" when the key is missing |
| `M3uToTxt.SaveRowMake` | scripts/2_m3u_to_txt.py:99-109 | A channel built from nine values saves back as exactly those values, and has exactly the nine fields as keys |
| `M3uToTxt.IsM3UFormat` | scripts/2_m3u_to_txt.py:116-123 | The scan returns true iff some line, stripped, starts with "#EXTINF:" |
| `M3uToTxt.DisplayName` | scripts/2_m3u_to_txt.py:72-75 | The display name is stripped, and "" when the line has no comma |
| `M3uToTxt.DisplayNameAfterComma` | scripts/2_m3u_to_txt.py:73-75 | It is the stripped text after the first comma |
| `M3uToTxt.ExtractAttr` | scripts/2_m3u_to_txt.py:78-80 | An extracted attribute value is stripped |
| `M3uToTxt.ValueAt` | scripts/2_m3u_to_txt.py:79-80 | The value read at a match position is stripped |
| `M3uToTxt.QuotedValue` | scripts/2_m3u_to_txt.py:79-80 | The text up to the closing quote, stripped |
| `M3uToTxt.QuotedValueOf` | scripts/2_m3u_to_txt.py:79-80 | `[^"]*"` captures the whole quote-free value before the closing quote |
| `M3uToTxt.ExtractAttrAbsent` | scripts/2_m3u_to_txt.py:79-80 | Without an `attr="` occurrence the attribute is "" |
| `M3uToTxt.ExtractAttrValue` | scripts/2_m3u_to_txt.py:79-80 | With the first `attr="` occurrence followed by a quote-free value and a quote, the attribute is that value stripped |
| `M3uToTxt.ExtractAttrAt` | scripts/2_m3u_to_txt.py:79-80 | The value is read from the first occurrence of `attr="` |
| `M3uToTxt.QuotedAfterFirst` | scripts/2_m3u_to_txt.py:79 | A first occurrence of `attr="value"` is where `re.search` finds it, with the value following |
| `M3uToTxt.NextUrl` | scripts/2_m3u_to_txt.py:91-96 | The URL is the next line stripped when that line exists, is non-empty and does not start with "#"; otherwise it is "" |
| `M3uToTxt.M3uFields` | scripts/2_m3u_to_txt.py:83-109 | A channel has nine values with the URL second |
| `M3uToTxt.Openings` | scripts/2_m3u_to_txt.py:67-112 | The visited channel lines are `#EXTINF` lines at or after the start |
| `M3uToTxt.ChannelsAt` | scripts/2_m3u_to_txt.py:99-109 | One channel per visited line, in order |
| `M3uToTxt.OpeningsStep` | scripts/2_m3u_to_txt.py:67-112 | An `#EXTINF` line is visited and the scan jumps two lines; any other line advances one |
| `M3uToTxt.ChannelsFromStep` | scripts/2_m3u_to_txt.py:67-112 | The channel list unfolds the same way, one channel per visited `#EXTINF` line |
| `M3uToTxt.ParseM3U` | scripts/2_m3u_to_txt.py:61-113 | The index-driven while loop yields `ParsedM3U` |
| `M3uToTxt.OpeningsAtMost` | scripts/2_m3u_to_txt.py:67-112 | No more lines are visited than there are `#EXTINF` lines |
| `M3uToTxt.OpeningsExactly` | scripts/2_m3u_to_txt.py:67-112 | When no `#EXTINF` line directly follows another, every one is visited |
| `M3uToTxt.FirstOpened` | scripts/2_m3u_to_txt.py:67-112 | The first `#EXTINF` line is the first one visited |
| `M3uToTxt.NoneOpened` | scripts/2_m3u_to_txt.py:67-112 | Without an `#EXTINF` line nothing is visited |
| `M3uToTxt.SomeOpened` | scripts/2_m3u_to_txt.py:67-112 | With one, at least one line is visited |
| `M3uToTxt.M3UChannelCount` | scripts/2_m3u_to_txt.py:61-123 | A file is M3U iff parsing gives at least one channel. There are at most as many channels as `#EXTINF` lines, and exactly as many when none directly follows another |
| `M3uToTxt.FirstChannel` | scripts/2_m3u_to_txt.py:67-112 | The first channel comes from the first `#EXTINF` line |
| `M3uToTxt.ConsecutiveExtinf` | scripts/2_m3u_to_txt.py:93-110 | An `#EXTINF` line directly after another is skipped as that channel's URL line: one channel, with URL "" |
| `M3uToTxt.MakeChannelUrl` | scripts/2_m3u_to_txt.py:99-109 | A channel's "url" is its second value |
| `M3uToTxt.ChannelUrl` | scripts/2_m3u_to_txt.py:91-109 | The channel of line `j` has `NextUrl(lines, j)` as its URL |
| `M3uToTxt.ParsedUrls` | scripts/2_m3u_to_txt.py:67-112 | Channel `k` comes from the `k`-th visited line and has that line's next-line URL |
| `M3uToTxt.Pad` | scripts/2_m3u_to_txt.py:152 | Padding keeps the row and adds "" up to nine columns |
| `M3uToTxt.ParseTxt` | scripts/2_m3u_to_txt.py:140-167 | The row loop yields `TxtChannels` |
| `M3uToTxt.TxtChannelsOfKept` | scripts/2_m3u_to_txt.py:140-166 | One channel per kept row, in order. Empty rows are skipped, and so are rows whose first column contains 更新时间 or #genre# or matches `^\d{8} \d{2}:\d{2}$` |
| `M3uToTxt.TxtColumns` | scripts/2_m3u_to_txt.py:152-165 | Column `k < 9` of a TXT row, stripped, or "" when missing, is field `k`; extra columns are ignored |
| `M3uToTxt.TimestampRowDropped` | scripts/2_m3u_to_txt.py:148-149 | A row starting with "20231227 15:30" is skipped |
| `M3uToTxt.ProcessFile` | scripts/2_m3u_to_txt.py:170-184 | An M3U file is parsed as M3U and gives between one channel and its number of `#EXTINF` lines; any other file is parsed as TXT |
| `M3uToTxt.SaveChannels` | scripts/2_m3u_to_txt.py:187-197 | The table written is `OUTPUT_HEADER`, then one row per channel in field order |
| `M3uToTxt.OutputNameOfPlain` | scripts/2_m3u_to_txt.py:221-222 | `name.m3u` and `name.txt` are written as `name.txt` |
| `M3uToTxt.ConvertFile` | scripts/2_m3u_to_txt.py:210-225 | A file is skipped iff its name ends in neither ".m3u" nor ".txt" or it yields no channel. Otherwise it is written under the `.txt` name, with the header and then row `j + 1` the saved fields of channel `j` |
| `MergeSources.NameRunLongest` | scripts/3_merge_local_sources.py:64-68 | The name matched at a position is the longest run of name characters there |
| `MergeSources.MatchAt` | scripts/3_merge_local_sources.py:64-68 | A match of `name="value"` at a position is non-empty and lies within the text |
| `MergeSources.MatchWithPair` | scripts/3_merge_local_sources.py:64-68 | A name followed by `="`, a quote-free value and a quote is matched as that pair, spanning exactly those characters |
| `MergeSources.LookupMissing` | scripts/3_merge_local_sources.py:77-83 | `attributes.get(key, "")` is "" when no pair carries the key |
| `MergeSources.ScanNames` | scripts/3_merge_local_sources.py:64 | Every name `re.findall` captures consists of name characters |
| `MergeSources.HyphenatedKeyLost` | scripts/3_merge_local_sources.py:64-82 | With `\w+` names, a hyphenated key such as "tvg-id" is never found, whatever the line holds |
| `MergeSources.NameRunPrefix` | scripts/3_merge_local_sources.py:64 | A name followed by a non-name character is matched whole |
| `MergeSources.MatchRendered` | scripts/3_merge_local_sources.py:190-198 | A written pair `name="value"` is matched back as itself |
| `MergeSources.ScanRenderedHead` | scripts/3_merge_local_sources.py:190-200 | Scanning a written pair followed by more text finds that pair first |
| `MergeSources.ScanSpace` | scripts/3_merge_local_sources.py:200 | The separating space finds no pair |
| `MergeSources.ScanRenderedRoundTrip` | scripts/3_merge_local_sources.py:188-200 | Scanning the space-joined written pairs, with hyphen-aware names, gives back exactly those pairs |
| `MergeSources.RemoveAll` | scripts/3_merge_local_sources.py:62 | `str.replace(needle, "")` never lengthens the text |
| `MergeSources.DisplayName` | scripts/3_merge_local_sources.py:68-72 | The display name is stripped: the text after the first comma, or the whole remainder when there is no comma |
| `MergeSources.NextLine` | scripts/3_merge_local_sources.py:60 | The address is the next line stripped, whatever it holds (blank or a comment included), or "" at the end of the file |
| `MergeSources.M3uFields` | scripts/3_merge_local_sources.py:62-84 | A channel has nine values with the address second |
| `MergeSources.M3uFromStep` | scripts/3_merge_local_sources.py:56-87 | An `#EXTINF` line yields its channel and reading resumes two lines later; any other line is passed over |
| `MergeSources.ReadStep` | scripts/3_merge_local_sources.py:74-85 | Appending the channel of an `#EXTINF` line and jumping two lines keeps the list equal to the specification |
| `MergeSources.ReadM3u` | scripts/3_merge_local_sources.py:51-90 | The index-driven loop yields `M3uChannels`: the corrected reader of the first Findings row, which reads hyphenated attribute names whole |
| `MergeSources.M3uChannelsAt` | scripts/3_merge_local_sources.py:56-87 | One channel per visited `#EXTINF` line, and channel `k` has the next line of the `k`-th visited line as its address |
| `MergeSources.MakeChannelUrl` | scripts/3_merge_local_sources.py:74-84 | A channel's 地址 is its second value |
| `MergeSources.M3uAsWritten` | scripts/3_merge_local_sources.py:51-90 | The reader as written (`\w+` names) yields as many channels as the corrected reader, with the same addresses: only the attribute columns differ |
| `MergeSources.AsWrittenTvgIdEmpty` | scripts/3_merge_local_sources.py:64-77 | As written, the tvg-id column of every channel read from a playlist is "" |
| `MergeSources.TxtFields` | scripts/3_merge_local_sources.py:101-118 | A line that is not blank, not a genre marker and has at least nine comma-separated fields yields exactly nine stripped fields |
| `MergeSources.TxtFieldsRoundTrip` | scripts/3_merge_local_sources.py:101-118 | Nine stripped, comma-free fields joined by commas, with a non-empty address and no genre marker, are read back unchanged |
| `MergeSources.TxtLine` | scripts/3_merge_local_sources.py:100-133 | A line that yields a channel has an address starting with http://, https:// or rtsp:// |
| `MergeSources.TxtChannels` | scripts/3_merge_local_sources.py:100-133 | There are at most as many channels as lines |
| `MergeSources.ReadTxt9` | scripts/3_merge_local_sources.py:96-136 | The line loop yields `TxtChannels` |
| `MergeSources.TxtChannelsStream` | scripts/3_merge_local_sources.py:120-121 | Every channel read from a table has a stream address |
| `MergeSources.TxtLineRoundTrip` | scripts/3_merge_local_sources.py:100-133 | Nine comma-free stripped fields with a stream address, joined by commas (and not containing #genre#), read back as the channel of those fields |
| `MergeSources.JoinLength` | scripts/3_merge_local_sources.py:104 | A joined line is at least as long as each of its parts |
| `MergeSources.Tagged` | scripts/3_merge_local_sources.py:160-161 | Tagging keeps the channels in order and sets 来源文件 to the file's name in each |
| `MergeSources.MergedStep` | scripts/3_merge_local_sources.py:151-163 | One more file adds its channels after the others |
| `MergeSources.Tag` | scripts/3_merge_local_sources.py:160-161 | The tagging loop yields `Tagged` |
| `MergeSources.MergeAllSources` | scripts/3_merge_local_sources.py:142-166 | A missing directory gives no channel. Otherwise the result is the channels of the `.m3u` (or `.txt`) files, tagged, in listing order; `.m3u` files are read by the corrected `ReadM3u` |
| `MergeSources.MergedSources` | scripts/3_merge_local_sources.py:151-163 | Every merged channel is tagged with the name of a file of the right kind |
| `MergeSources.KeysSnoc` | scripts/3_merge_local_sources.py:178 | Adding a channel adds its key to the seen set |
| `MergeSources.KeysIn` | scripts/3_merge_local_sources.py:175-178 | A key is seen iff some channel carries it |
| `MergeSources.FirstByKey` | scripts/3_merge_local_sources.py:173-180 | Kept and skipped channels together number as many as the input |
| `MergeSources.FirstByKeyPartition` | scripts/3_merge_local_sources.py:173-180 | Kept and skipped channels are, as a multiset, exactly the input |
| `MergeSources.FirstByKeyKeeps` | scripts/3_merge_local_sources.py:173-180 | Every stripped address is kept exactly once, by the first channel that carries it, and every skipped channel repeats a kept address |
| `MergeSources.Skips` | scripts/3_merge_local_sources.py:176 | One log entry per skipped channel, with reason 重复URL |
| `MergeSources.Deduplicate` | scripts/3_merge_local_sources.py:169-180 | The `seen_urls` loop keeps `FirstByKey`'s kept channels and logs each skipped one |
| `MergeSources.ExtinfAttrs` | scripts/3_merge_local_sources.py:188-198 | Only non-empty values are listed |
| `MergeSources.ExtinfAttrsReadable` | scripts/3_merge_local_sources.py:188-198 | With quote-free values, every listed pair is readable with hyphen-aware names |
| `MergeSources.ExtinfRoundTrip` | scripts/3_merge_local_sources.py:188-200 | The pairs of a written `#EXTINF` line are read back exactly by the corrected reader |
| `MergeSources.WritePlaylist` | scripts/3_merge_local_sources.py:185-201 | The playlist is one `#EXTM3U` line, then for each kept channel its `#EXTINF:-1` line (tvg-id, tvg-name, tvg-logo, group-title, resolution when non-empty, then `,name`) followed by its address |
| `MergeSources.CsvRow` | scripts/3_merge_local_sources.py:203-206 | A table row has the ten columns in order, "" for a missing one |
| `MergeSources.SkipLog` | scripts/3_merge_local_sources.py:208-211 | The log is its header line, then `name,url,reason` per skipped channel |
| `MergeSources.WriteOutputFiles` | scripts/3_merge_local_sources.py:168-211 | The playlist (`#EXTM3U`, then each kept channel's `#EXTINF` line and address) and the table (header, then one row per kept channel) hold the first channel per stripped address, and the log every later duplicate; table rows plus log entries equal the input count |
| `MergeSources.MergeStage` | scripts/3_merge_local_sources.py:216-229 | Nothing is written iff the directory is missing or yields no channel. Otherwise the playlist, table and log are those `WriteOutputFiles` states for the merged channels, read with the corrected `ReadM3u` |
| `SplitMerge.ChunkCountIsCeiling` | scripts/4_split_merge.py:72 | `(total + size - 1) // size` is the ceiling: that many chunks of `size` hold every row, and one fewer does not |
| `SplitMerge.FlattenSlicesFrom` | scripts/4_split_merge.py:75-76 | The slices taken from `begin` on, concatenated, are the rows from `begin` on |
| `SplitMerge.FlattenSlices` | scripts/4_split_merge.py:75-78 | Concatenating the chunks in index order gives back the rows exactly |
| `SplitMerge.SlicesFromCount` | scripts/4_split_merge.py:72-75 | The slices from `begin` on number the ceiling of the remaining rows over `size` |
| `SplitMerge.SlicesCount` | scripts/4_split_merge.py:72-75 | The loop takes exactly `ChunkCount` slices |
| `SplitMerge.SlicesFromAt` | scripts/4_split_merge.py:75-76 | Chunk `k` (from 0) holds `rows[k*size : (k+1)*size]` |
| `SplitMerge.SlicesFromSizes` | scripts/4_split_merge.py:75-76 | Every chunk holds between 1 and `size` rows, and all but the last exactly `size` |
| `SplitMerge.SplitRows` | scripts/4_split_merge.py:75-87 | The loop stepping `start` by `size` writes chunk `k+1` as `chunk-{k+1}.csv` with the header and slice `k`, indices running 1 to the count |
| `SplitMerge.ChunkNameCleaned` | scripts/4_split_merge.py:37-45 | Every chunk name written is one the next run's cleanup removes |
| `SplitMerge.Cleanup` | scripts/4_split_merge.py:37-45 | Cleanup removes exactly the listed files whose name starts with "chunk" and ends with ".csv" |
| `SplitMerge.SplitDeepScan` | scripts/4_split_merge.py:10-87 | A missing input exits with code 1 before anything is removed or written. Otherwise the old chunk files are removed and `ChunkCount` chunks are written, each as described |
| `SplitMerge.ChunksCoverTable` | scripts/4_split_merge.py:72-87 | The chunks written cover the table exactly, in index order, each with 1 to `size` rows and all but the last with `size`, chunk `k` starting at row `k*size` |
| `MergeDeepScan.MergedTableStep` | scripts/7.2_merge_deep_scan.py:27-41 | One more file adds its first row when no header was written yet, then its data rows |
| `MergeDeepScan.CopyRows` | scripts/7.2_merge_deep_scan.py:38-41 | The row loop appends a file's non-empty rows after its first one and counts them |
| `MergeDeepScan.MergeFiles` | scripts/7.2_merge_deep_scan.py:24-41 | The file loop with `header_written` and `total_rows` writes `MergedTable` and counts its data rows |
| `MergeDeepScan.FilesOf` | scripts/7.2_merge_deep_scan.py:24-27 | The files are read in the order of the names given |
| `MergeDeepScan.MergeCsvDir` | scripts/7.2_merge_deep_scan.py:6-44 | Exactly the `.csv` files are merged, in sorted name order. Nothing is written iff there is none, and otherwise the merged table and its data-row count are |
| `MergeDeepScan.FirstHeaderIsFirst` | scripts/7.2_merge_deep_scan.py:28-36 | There is no header iff every file is empty; otherwise it is the first row of the first file that has a row |
| `MergeDeepScan.HeaderOnce` | scripts/7.2_merge_deep_scan.py:29-41 | The table is exactly one header row followed by the data rows, or empty when every file is empty |
| `MergeDeepScan.NoHeaderNoData` | scripts/7.2_merge_deep_scan.py:28-31 | Files with no rows contribute no data |
| `MergeDeepScan.DataRowsBelowHeader` | scripts/7.2_merge_deep_scan.py:28-41 | Every data row is a non-empty row below the first row of its file: a file's header is never copied as data |
| `MergeDeepScan.DataCount` | scripts/7.2_merge_deep_scan.py:38-41 | `total_rows` is the sum over files of their non-empty rows below the first |
| `MergeDeepScan.MergeOrderUnique` | scripts/7.2_merge_deep_scan.py:7-10 | The sorted order of the `.csv` names is unique, so the merge order leaves no freedom |
| `Download.BaseName` | scripts/1_download_m3u.py:38-41 | `os.path.basename` is a '/'-free suffix of the path |
| `Download.Extension` | scripts/1_download_m3u.py:32-36 | The extension is non-empty and starts with '.' |
| `Download.ParseUrlLine` | scripts/1_download_m3u.py:24-43 | The address and the file name are both present or both absent (`ParseUrlLineShape` says when, and what they hold) |
| `Download.ParseUrlLineShape` | scripts/1_download_m3u.py:24-42 | A blank or commented line gives `(None, None)`. Any other line gives a non-empty, stripped, '#'-free address and a non-empty file name |
| `Download.ParseUrlLineRoundTrip` | scripts/1_download_m3u.py:24-42 | A line `url#name` is read back as that address and `name` plus the path's extension |
| `Download.SplitLineAt` | scripts/1_download_m3u.py:29-30 | `split("#", 1)` of `url#name` gives the address and the name |
| `Download.ParseUrlLineNoName` | scripts/1_download_m3u.py:38-41 | Without a name the file is the path's last segment, or "downloaded_file" plus the extension when that segment is empty |
| `Download.ExtensionOf` | scripts/1_download_m3u.py:32-36 | A path with a one-dot extension keeps it, and a path without a dot gets ".m3u" |
| `Download.Queued` | scripts/1_download_m3u.py:63-69 | No more pairs are queued than there are lines |
| `Download.DownloadList` | scripts/1_download_m3u.py:63-69 | The reading loop yields `Queued` |
| `Download.PairShape` | scripts/1_download_m3u.py:65-69 | A line queues exactly one pair iff it is neither blank nor a comment, and no pair otherwise; a queued address is non-empty |
| `Download.QueuedStep` | scripts/1_download_m3u.py:65-69 | One more line queues one pair iff it is neither blank nor a comment, and that pair's address is non-empty |
| `Download.QueuedCount` | scripts/1_download_m3u.py:65-69 | One pair is queued per line that is neither blank nor a comment |
| `Download.QueuedAddresses` | scripts/1_download_m3u.py:65-69 | Every queued address is non-empty |

## Left out

- Network I/O (aiohttp sessions, connectors, `download_file` and the download loop of `download_list`, the request in `fetch_url`): each request's outcome is an input (`FastScan.Response`), and downloading is not modelled.
- Subprocesses (`ffprobe`, `ffmpeg`, `wait_for` timeouts, `proc.kill()`): each run's outcome is an input value (`PtsCheck.ToolOutcome`, `DeepScan.ProbeRun`, `HashScan.Capture`, the frame oracle of `FinalScan.GrabFrameMulti`).
- Concurrency (semaphores, `as_completed`, `gather`): the model is sequential and processes tasks in input order. `FastScan.SplitOrderFree` shows the ok/not split does not depend on that order. The deep-scan files list rows in completion order, which the model does not capture.
- HashScan.HashScan: when a URL appears twice, the entry kept is that of its last task in input order; the script keeps whichever task completes last.
- Image work (PIL decoding, LANCZOS resizing, the `imagehash` library, the FFT-based phash of `image_to_phash_bytes`): ahash and dhash are modelled over a given integer pixel grid, and phash values are inputs.
- Floating point. Similarities and PTS values are exact `real`s, so Python's float rounding is not modelled. The `float()` parsing of frame rates and timestamps is an oracle, and `duration`/`bit_rate` parsing is not modelled (the probe carries them as values).
- PtsCheck.ProbePts: the span is the exact `max - min`, not `round(pts_span, 3)`.
- DeepScan.ProbeOne: the elapsed time is an input, and its `:.3f` formatting is an oracle.
- Library-backed text handling is not modelled: encoding detection and decoding (`chardet`, `safe_open`), `splitlines`, CSV dialect sniffing and CSV parsing/quoting (a file is its rows of fields), pandas and JSON (de)serialisation (documents are maps).
- Download.ParseUrlLine: `urlparse(url).path` is a parameter (`pathOf`), so the model does not fix how a URL's path is found.
- `\d` in the timestamp pattern is ASCII digits only. `\w` is ASCII letters, digits, underscore and every non-ASCII character. `str.strip()` uses Python's full whitespace set (`Text.IsSpace`).
- Clocks and the filesystem. Today's three dates and the time tag are parameters, and directory listings are sequences. The merge-record file is not read or written: `MergeCache.MergeCaches` returns the date it would record.
- SplitMerge.SplitDeepScan: requires a positive chunk size (the script's default is 1000); a zero size would raise `ZeroDivisionError`, which is not modelled.
- Progress bars, prints and log messages are not modelled.
- FinalScan.DecodeHash: accepts only a non-empty string of hexadecimal digits. `int(v, 16)` also accepts surrounding whitespace (`" ff\n"`), a sign (`"+ff"`, `"-ff"`, which gives a negative number), a `0x`/`0X` prefix (`"0xff"`) and single underscores between digits (`"f_f"`). On these the model fails, so `FinalScan.LoadCacheAdvanced` fails where the script loads the cache. The hash scanner never writes these forms, and a negative hash has no meaning for the bit counting of `hamming`.
- MergeSources.ReadM3u: models the corrected reader of the first Findings row, which reads hyphenated names whole. The script's `\w+` reader is `MergeSources.M3uAsWritten`, and with it `#EXTINF:-1 tvg-id="x",A` gives tvg-id "".
- MergeSources.MergeAllSources: reads `.m3u` files with the corrected `ReadM3u`, so hyphenated attributes are kept where the script loses them.
- MergeSources.MergeStage: merges with the corrected `ReadM3u` through `MergeAllSources`.
- DeepScan.Lines: writes through the corrected writer of the second Findings row (`WriteRow`, extra keys ignored). The script's first `writerow` raises `ValueError` (`DeepScan.WriteRaisesOnResults`).
- DeepScan.DeepScan: writes its two files through `DeepScan.Lines`, so it models the corrected program. As written, the script stops with `ValueError` at its first written row. The header is a list of names: on an empty input file `fieldnames` is `None` (scripts/6.2_deep_scan.py:121), and `fieldnames_in + new_fields` (scripts/6.2_deep_scan.py:143) raises `TypeError` before either output file is opened; the model does not capture that crash.
- DeepScan.Scanned: `num, den = r.split("/")` (scripts/6.2_deep_scan.py:49) is outside the `try`, so a rate text with two or more slashes (`"30/1/1"`) raises `ValueError` and ends the run. The model passes the text to the `rate` oracle and carries on.
- DeepScan.ProbeAll: `row["地址"]` (scripts/6.2_deep_scan.py:63) raises `KeyError` when the row has no 地址 column. The model probes the row with the given run outcome.
- FastScan.RunAll: the header is a list of names. On an empty input file `reader.fieldnames` is `None` (scripts/6.1_fast_scan.py:158), and `fieldnames + [...]` (scripts/6.1_fast_scan.py:119) raises `TypeError` before either output file is opened; the model does not capture that crash.
- FastScan.IsHttp: when a short row leaves 地址 as `None`, `.startswith` (scripts/6.1_fast_scan.py:162-163) raises `AttributeError`. The model skips the row.
- HashScan.UrlOf: when a short row leaves 地址 as `None`, `.strip()` (scripts/6.3_hash_scan.py:100) raises `AttributeError`. The model reads the address as "", so the row is skipped.

## Findings

| source | as written | input that shows it | evidently intended | confidence | as-written member | corrected member |
|---|---|---|---|---|---|---|
| scripts/3_merge_local_sources.py:64-82 | Attribute names are matched with `\w+`, so a hyphenated name such as `tvg-id` is captured as `id`. Every lookup of tvg-id, tvg-name, tvg-country, tvg-language, tvg-logo and group-title returns "" | the line `#EXTINF:-1 tvg-id="x",A` yields tvg-id "" | hyphenated names are read whole, so the attributes that `write_output_files` writes (lines 188-200) are read back | not executed | `MergeSources.AsWrittenTvgIdEmpty` | `MergeSources.ExtinfRoundTrip` |
| scripts/6.2_deep_scan.py:143,173-187 | `csv.DictWriter` keeps its default `extrasaction="raise"`, but every result row carries the diagnostic keys (has_video, error, ...) that the header `fieldnames_in + new_fields` lacks, so the first `writerow` raises `ValueError` | any input table whose columns do not include has_video, with at least one row | extra keys are ignored, as the reachability stage's writers do (scripts/6.1_fast_scan.py:127-131), so each line is the input columns followed by the six readable ones | not executed | `DeepScan.WriteRaisesOnResults` | `DeepScan.WrittenResult` |
