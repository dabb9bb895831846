# MOCA core in Dafny

MOCA is the Android application of a small hacker conference: a schedule synchronised from a web service, an FAQ, a home page, a Twitter feed and banners of sponsors and partners.  This project models the sequential logic under those screens and proves properties of it.  One `.dfy` file stands for each core Java file, plus two shared modules: `java_lang.dfy` has Option, Result, the exceptions and the Java string and integer helpers, and `json.dfy` has the JSON tree.

- **Reference-counted bitmaps** (`bitmap_wrapper.dfy`, `memory_cache.dfy`, `image_view.dfy`, `loaders.dfy`, `local_loader.dfy`, `scaling_loader.dfy`, `bitmap_keys.dfy`, `sampling.dfy`).
  - A `BitmapWrapper` counts its cache references and its view references.  It recycles its bitmap when both counts drop to zero.
  - The LRU memory cache takes a cache reference on `put`, gives it back in `entryRemoved`, and keeps only displayed entries in `trimMemory`.
  - `CacheableImageView` references the new wrapper before it releases the old one.
  - The loaders have three paths: a memory hit, a placeholder with a tagged task, and a disk-then-network task.  A result is bound to a view only if the view's tag still names the task's key.
  - Cache keys are the zero-padded hex of a SHA-1 digest.
  - The decode sample size is found by a search loop, with Java's int wrap-around and its float division by a zero request size.
  - The central invariants: every wrapper in the memory cache holds at least one cache reference, so no amount of view traffic recycles it while it stays cached, and `recycle()` is called at most once per bitmap.  `put` stores a wrapper whatever its state, as the source does, so a wrapper recycled before it was cached stays recycled in the cache.
- **Background tasks** (`async_task.dfy`, `exception_loader.dfy`).
  - `SafeAsyncTask.Task.call`'s callback order is a trace: pre, then success or exactly one exception handler, then finally.
  - The stored-exception state of `ExceptionLoader` is modelled with it.
- **Schedule sync** (`sessions.dfy`, `session_sync.dfy`, `sync_adapter.dfy`).
  - `Session`'s validating setters are modelled.
  - The three-way diff of the local and remote sessions produces update, delete and insert operations.  Value equality is a parameter, because the shipped `Session` compares by identity.
  - The counter and decision logic of `onPerformSync` is modelled.
- **JSON validators** (`schedule_json.dfy`, `faq_json.dfy`, `home_json.dfy`, `twitter_json.dfy`, `faq_entry.dfy`, `faq_headers.dfy`).
  - Each deserializer accepts exactly the well-formed documents and fails on the first malformed element.
  - FAQ ids are numbered consecutively.
  - The first entry of each FAQ category carries a header.
- **URIs and arguments** (`schedule_contract.dfy`, `schedule_provider.dfy`, `activity_utils.dfy`, `moca_app.dfy`).
  - Content URIs round-trip through their builders and parsers.
  - The provider's route table, `getType`, `buildSelection`, `insert` and `applyBatch` are modelled.
  - Fragment arguments and intents convert into each other.
  - The application splits the locale preference at start-up and decides whether to switch locale.

Calls into the platform or libraries that decide a result are parameters of the model: SHA-1, the time parsers, the database, the network, the disk cache and `ContentProviderOperation.apply`.

Where the code and its documentation disagree, the model follows the code:
- `calculateInSampleSize` starts its search from the ratio along the shorter axis: the height ratio when the image is wider than it is tall.
- A freshly constructed wrapper has both counts at zero and a valid bitmap.  The bitmap is recycled only by a later change of a count, not on construction.
- `Time.parse3339`'s `TimeFormatException` is neither an `IllegalArgumentException` nor a JSON exception, so it escapes the schedule deserializer unwrapped.
- The provider's matcher returns NO_MATCH for `sessions/at` and `sessions/day` with no further segment, so `buildSessionUri("at")` cannot be routed.  A path with a segment left over at a leaf finds no child and matches nothing, so `sessions/x/y` is unrouted.

In `calculateInSampleSize` the int products `width * height` and `inSampleSize * inSampleSize` and the increment wrap as Java ints do.  A zero request size divides by zero in float: `Math.round` of +Infinity, NaN and -Infinity gives Integer.MAX_VALUE, 0 and Integer.MIN_VALUE, and a zero square makes the quotient infinite.  So for a 0x0 request (a view not laid out yet) and a non-empty image the loop runs from Integer.MAX_VALUE through the wrap and returns Integer.MIN_VALUE + 46341.  Finite float quotients are compared exactly.  That differs from the float computation only when rounding at 24 bits of mantissa changes a comparison.

## Model

| member | source | states |
|---|---|---|
| BitmapRefs.Step | src/main/java/org/level28/android/moca/bitmaps/BitmapWrapper.java:113-149 | setCached moves only the cache counter by one, and setBeingUsed only the view counter; afterwards the bitmap is recycled exactly when it already was or both counters are at most zero |
| BitmapRefs.RecycledStaysRecycled | src/main/java/org/level28/android/moca/bitmaps/BitmapWrapper.java:141-149 | once recycled, no sequence of counter updates brings the bitmap back |
| BitmapRefs.RecycledIffOnceUnreferenced | src/main/java/org/level28/android/moca/bitmaps/BitmapWrapper.java:113-149 | after any sequence of updates the bitmap is recycled if and only if it started recycled or some prefix of the updates left both counters at most zero |
| BitmapRefs.CachedSurvivesViewTraffic | src/main/java/org/level28/android/moca/bitmaps/BitmapWrapper.java:129-149 | while the cache holds a reference, any amount of image-view traffic neither recycles the bitmap nor changes the cache counter |
| BitmapRefs.DisplayedSurvivesCacheTraffic | src/main/java/org/level28/android/moca/bitmaps/BitmapWrapper.java:113-120 | while a view holds a reference, cache traffic alone neither recycles the bitmap nor changes the view counter |
| BitmapRefs.HandOffOrder | src/main/java/org/level28/android/moca/bitmaps/BitmapWrapper.java:129-149 | for a wrapper held only by one view, taking the new reference before releasing the old one returns to the same state, while the opposite order recycles it |
| BitmapRefs.UnmatchedReleaseGoesNegative | src/main/java/org/level28/android/moca/bitmaps/BitmapWrapper.java:129-136 | the counters are not clamped: a release without a matching take drives the view counter below zero |
| BitmapRefs.BitmapWrapper.constructor | src/main/java/org/level28/android/moca/bitmaps/BitmapWrapper.java:49-58 | a new wrapper keeps its key and bitmap, with both counters zero and the bitmap not recycled |
| BitmapRefs.BitmapWrapper.Create | src/main/java/org/level28/android/moca/bitmaps/BitmapWrapper.java:45-58 | a null bitmap is rejected with IllegalArgumentException, and only a null bitmap is; otherwise the result is a fresh wrapper with both counters zero |
| BitmapRefs.BitmapWrapper.IsReferencedByCache | src/main/java/org/level28/android/moca/bitmaps/BitmapWrapper.java:65-67 | true exactly when the cache counter is positive, and then the wrapper is not unreferenced, so the next check does not recycle it |
| BitmapRefs.BitmapWrapper.IsBeingDisplayed | src/main/java/org/level28/android/moca/bitmaps/BitmapWrapper.java:75-77 | true exactly when the view counter is positive, and then the wrapper is not unreferenced |
| BitmapRefs.BitmapWrapper.HasValidBitmap | src/main/java/org/level28/android/moca/bitmaps/BitmapWrapper.java:102-104 | true exactly when the bitmap is not recycled, that is when recycle() has never been called on it |
| BitmapRefs.BitmapWrapper.SetCached | src/main/java/org/level28/android/moca/bitmaps/BitmapWrapper.java:113-120 | the wrapper's new state is Step of the old one with the cache operation, and its recycle bookkeeping stays consistent |
| BitmapRefs.BitmapWrapper.SetBeingUsed | src/main/java/org/level28/android/moca/bitmaps/BitmapWrapper.java:129-136 | the wrapper's new state is Step of the old one with the view operation |
| BitmapRefs.BitmapWrapper.CheckRefCount | src/main/java/org/level28/android/moca/bitmaps/BitmapWrapper.java:141-149 | counters unchanged; afterwards the bitmap is recycled iff it was or both counters are at most zero, and recycle() is called at most once, only on a valid bitmap |
| BitmapKeys.KeySourceInjective | src/main/java/org/level28/android/moca/bitmaps/AbstractBitmapLoader.java:424-427 | distinct (url, width, height) triples give distinct strings "url::WxH" to digest |
| BitmapKeys.BytesValueBound | src/main/java/org/level28/android/moca/bitmaps/AbstractBitmapLoader.java:441 | the unsigned value of n bytes is below 256^n |
| BitmapKeys.BitmapKey | src/main/java/org/level28/android/moca/bitmaps/AbstractBitmapLoader.java:424-451 | the key always has 40 characters and is the digest's bytes printed as two lower-case hexadecimal digits each, so the zero padding restores the leading zero bytes |
| BitmapKeys.PaddedIsFixed | src/main/java/org/level28/android/moca/bitmaps/AbstractBitmapLoader.java:441-449 | padding the shortest hexadecimal digits of n with zeros to k places is printing n in exactly k places |
| BitmapKeys.BytesHex | src/main/java/org/level28/android/moca/bitmaps/AbstractBitmapLoader.java:441 | printing a byte string's unsigned value in two digits per byte gives each byte its own two digits, in order |
| BitmapKeys.PaddedBytes | src/main/java/org/level28/android/moca/bitmaps/AbstractBitmapLoader.java:441-450 | the padded print of a non-empty digest's value is its per-byte hexadecimal form |
| BitmapKeys.LocalKeyInjective | src/main/java/org/level28/android/moca/bitmaps/SimpleBitmapLoader.java:71 | distinct resource ids give distinct "local:" keys |
| MemoryCache.CacheCapacity | src/main/java/org/level28/android/moca/bitmaps/BitmapLruCache.java:45-48 | the capacity is the whole heap for a fraction of at least one, and between zero and the whole heap for any non-negative fraction |
| MemoryCache.DefaultCapacity | src/main/java/org/level28/android/moca/bitmaps/BitmapLruCache.java:36-48 | the default cache is exactly one eighth of the heap, 131072 bytes per megabyte |
| MemoryCache.SizeOf | src/main/java/org/level28/android/moca/bitmaps/BitmapLruCache.java:54-63 | a valid bitmap weighs rowBytes times height, a recycled one nothing |
| MemoryCache.BitmapLruCache.constructor | src/main/java/org/level28/android/moca/bitmaps/BitmapLruCache.java:50-52 | a new cache is empty and consistent, with the given budget |
| MemoryCache.BitmapLruCache.Get | src/main/java/org/level28/android/moca/bitmaps/BitmapLruCache.java:34 | a null key throws NullPointerException; otherwise the stored wrapper is returned, the entries are unchanged and a hit becomes the most recently used key |
| MemoryCache.BitmapLruCache.Put | src/main/java/org/level28/android/moca/bitmaps/BitmapLruCache.java:72-86 | the new value takes a cache reference first (even for a null key, which then throws NullPointerException); the entry is stored as most recent and the displaced wrapper, unless it is the same one, gives its reference back |
| MemoryCache.BitmapLruCache.PutWrapper | src/main/java/org/level28/android/moca/bitmaps/BitmapLruCache.java:68-70 | put(newValue) is put under the wrapper's own key, with the same effects |
| MemoryCache.BitmapLruCache.Remove | src/main/java/org/level28/android/moca/bitmaps/BitmapLruCache.java:79-86 | the entry disappears from the map and the order, and the removed wrapper gives back its cache reference |
| MemoryCache.BitmapLruCache.EvictEldest | src/main/java/org/level28/android/moca/bitmaps/BitmapLruCache.java:79-86 | eviction takes the least recently used entry, which gives back its cache reference |
| MemoryCache.BitmapLruCache.TrimMemory | src/main/java/org/level28/android/moca/bitmaps/BitmapLruCache.java:94-101 | exactly the entries whose wrapper some view displays remain, unchanged and in their old order; every dropped wrapper gives back one cache reference and every kept one is untouched |
| MemoryCache.BitmapLruCache.EvictAll | src/main/java/org/level28/android/moca/bitmaps/BitmapLruCache.java:79-86 | evicting everything empties the cache and every wrapper gives back one cache reference |
| ImageViews.RedisplayKeepsState | src/main/java/org/level28/android/moca/ui/CacheableImageView.java:53-63 | re-displaying a wrapper that still holds a reference takes and gives back a view reference without recycling it |
| ImageViews.CacheableImageView.CachedBitmapWrapper | src/main/java/org/level28/android/moca/ui/CacheableImageView.java:87-89 | the wrapper the view holds a reference on, or null when it holds none |
| ImageViews.CacheableImageView.ResetCachedBitmap | src/main/java/org/level28/android/moca/ui/CacheableImageView.java:104-109 | the recorded wrapper, if any, gives back one view reference and is forgotten; the drawable and tags are unchanged |
| ImageViews.CacheableImageView.SetImageDrawable | src/main/java/org/level28/android/moca/ui/CacheableImageView.java:70-74 | the drawable is shown and the recorded wrapper released, once |
| ImageViews.CacheableImageView.SetImageResource | src/main/java/org/level28/android/moca/ui/CacheableImageView.java:76-80 | the resource is shown and the recorded wrapper released, once |
| ImageViews.CacheableImageView.OnDetachedFromWindow | src/main/java/org/level28/android/moca/ui/CacheableImageView.java:91-98 | the view clears its content and releases the recorded wrapper |
| ImageViews.CacheableImageView.SetImageCachedBitmap | src/main/java/org/level28/android/moca/ui/CacheableImageView.java:53-63 | a valid wrapper takes its view reference and is drawn before the previous wrapper is released; a null or recycled one clears the content; either way it becomes the recorded wrapper |
| ImageViews.CacheableImageView.SetImageBitmap | src/main/java/org/level28/android/moca/ui/CacheableImageView.java:65-68 | a null bitmap throws IllegalArgumentException and changes nothing; otherwise a fresh key-less wrapper with one view reference is displayed |
| ImageViews.CacheableImageView.SetTag | src/main/java/org/level28/android/moca/ui/CacheableImageView.java:35 | setTag changes only the named slot |
| Loaders.L2LookupAsWritten | src/main/java/org/level28/android/moca/bitmaps/AbstractBitmapLoader.java:224-251 | as written, an L2 entry that does not decode throws IllegalArgumentException (from the BitmapWrapper constructor) and only such an entry does; a decodable entry is returned and a missing key or cache is a miss |
| Loaders.L2Lookup | src/main/java/org/level28/android/moca/bitmaps/AbstractBitmapLoader.java:224-251 | the corrected lookup: a hit exactly when the L2 cache holds a decodable bitmap under the key, and then that bitmap |
| Loaders.L2Store | src/main/java/org/level28/android/moca/bitmaps/AbstractBitmapLoader.java:265-289 | a released loader or a missing L2 cache stores nothing; otherwise the key now maps to the fetched bitmap and every other entry is kept |
| Loaders.FetchAsWritten | src/main/java/org/level28/android/moca/bitmaps/AbstractBitmapLoader.java:322-347 | an empty url or key, or a released loader, gives null with the disk untouched; the task fails only when the network fetch fails or, as written, the L2 entry does not decode, and then the disk is untouched; the disk changes only by storing a fetched bitmap |
| Loaders.Fetch | src/main/java/org/level28/android/moca/bitmaps/AbstractBitmapLoader.java:322-347 | the corrected task: the same null case; a decodable L2 entry is returned without fetching; the task fails only with the network fetch's own exception; the disk changes only by storing a fetched bitmap |
| Loaders.UndecodableEntryIsPermanent | src/main/java/org/level28/android/moca/bitmaps/AbstractBitmapLoader.java:322-347 | as written, an undecodable L2 entry makes the task fail with IllegalArgumentException whatever the network would give, and the entry stays, so every later task for the key fails too |
| Loaders.UndecodableEntryExample | src/main/java/org/level28/android/moca/bitmaps/AbstractBitmapLoader.java:322-347 | the input that shows it: an undecodable entry and a network that succeeds, on which the written task fails and the corrected one returns the bitmap |
| Loaders.FetchAgreesWhenDecodable | src/main/java/org/level28/android/moca/bitmaps/AbstractBitmapLoader.java:322-347 | the written and the corrected task agree on every input without an undecodable entry under the key |
| Loaders.FetchWritesBack | src/main/java/org/level28/android/moca/bitmaps/AbstractBitmapLoader.java:336-346 | a bitmap fetched on a live loader is written to L2, so the same task run again is a disk hit returning it with the disk unchanged |
| Loaders.DiskHitSkipsFetch | src/main/java/org/level28/android/moca/bitmaps/AbstractBitmapLoader.java:336-338 | a decodable disk entry is returned without using the fetch and without changing the disk |
| Loaders.InertTask | src/main/java/org/level28/android/moca/bitmaps/AbstractBitmapLoader.java:323-335 | a task without url or key, or on a released loader, returns null and leaves the disk alone |
| Loaders.FailedFetchStoresNothing | src/main/java/org/level28/android/moca/bitmaps/AbstractBitmapLoader.java:341-346 | a failed or empty fetch never changes the disk, and on a miss its outcome is passed through |
| Loaders.ShowDrawable | src/main/java/org/level28/android/moca/bitmaps/AbstractBitmapLoader.java:192-201 | the drawable is shown, the previous wrapper gives back its view reference, and only the avatar tag slot is rewritten |
| Loaders.ShowWrapper | src/main/java/org/level28/android/moca/bitmaps/AbstractBitmapLoader.java:204-214 | the wrapper is handed to the view (drawn only if not recycled) and the avatar tag rewritten; a cache-held wrapper is not recycled |
| Loaders.BitmapLoader.constructor | src/main/java/org/level28/android/moca/bitmaps/AbstractBitmapLoader.java:81-106 | a new loader shares the given memory cache, holds the L2 cache opening gave, is not released and has started no task |
| Loaders.BitmapLoader.Key | src/main/java/org/level28/android/moca/bitmaps/AbstractBitmapLoader.java:424-451 | the loader's key is 40 characters, the hexadecimal digest of the UTF-8 "url::WxH" string |
| Loaders.BitmapLoader.Release | src/main/java/org/level28/android/moca/bitmaps/AbstractBitmapLoader.java:116-139 | a second release throws IllegalStateException and changes nothing; the first marks the loader released, closes an open L2 cache, and empties the memory cache exactly when asked, each evicted wrapper giving back its cache reference |
| Loaders.BitmapLoader.GetFromL1 | src/main/java/org/level28/android/moca/bitmaps/AbstractBitmapLoader.java:216-221 | a released loader throws IllegalStateException; otherwise the memory cache's entry, which becomes most recently used |
| Loaders.BitmapLoader.GetFromL2 | src/main/java/org/level28/android/moca/bitmaps/AbstractBitmapLoader.java:224-251 | the corrected lookup: a released loader throws IllegalStateException; otherwise a fresh unreferenced wrapper under the key exactly when the L2 cache holds a decodable entry, and a miss for an undecodable one, where the source throws IllegalArgumentException |
| Loaders.BitmapLoader.AddToL1 | src/main/java/org/level28/android/moca/bitmaps/AbstractBitmapLoader.java:254-262 | nothing once released; a key-less wrapper throws NullPointerException; otherwise the wrapper is stored under its key as most recent, takes a cache reference unless it was already stored, and a displaced wrapper gives its reference back |
| Loaders.BitmapLoader.AddToL2 | src/main/java/org/level28/android/moca/bitmaps/AbstractBitmapLoader.java:265-289 | nothing once released or without L2; a key-less wrapper throws NullPointerException; otherwise the disk becomes L2Store of the bitmap under the key |
| Loaders.BitmapLoader.Load | src/main/java/org/level28/android/moca/bitmaps/AbstractBitmapLoader.java:153-189 | a null view throws NullPointerException; a null url or a released loader shows the placeholder with a null tag; a memory hit with a valid bitmap is bound at once with a null tag; otherwise the placeholder is shown tagged with the key and exactly one task for (view, url, key, size) is started |
| Loaders.BitmapLoader.Request | src/main/java/org/level28/android/moca/bitmaps/AbstractBitmapLoader.java:162-188 | the same outcomes as load for a non-null view and url, with the released loader caught as IllegalStateException |
| Loaders.BitmapLoader.Call | src/main/java/org/level28/android/moca/bitmaps/AbstractBitmapLoader.java:322-347 | the corrected task's result and new disk are Fetch's; a bitmap comes back as a fresh unreferenced wrapper under the task's key |
| Loaders.BitmapLoader.OnSuccess | src/main/java/org/level28/android/moca/bitmaps/AbstractBitmapLoader.java:350-361 | a non-null result enters the memory cache (unless released) and is bound with a null tag exactly when the view is still alive and still tagged with the task's key; otherwise the view is untouched |
| LocalLoaders.SimpleBitmapLoader.constructor | src/main/java/org/level28/android/moca/bitmaps/SimpleBitmapLoader.java:54-58 | a new loader shares the given memory cache and placeholder and has started no task |
| LocalLoaders.SimpleBitmapLoader.Load | src/main/java/org/level28/android/moca/bitmaps/SimpleBitmapLoader.java:66-107 | a null view throws IllegalArgumentException; a memory hit under "local:" plus the id with a valid bitmap is bound at once with a null banner tag; otherwise the placeholder is shown tagged with the key and one task for (view, key, id) is started; the avatar tag slot is never touched |
| LocalLoaders.SimpleBitmapLoader.Call | src/main/java/org/level28/android/moca/bitmaps/SimpleBitmapLoader.java:129-139 | null exactly when decoding fails; otherwise a fresh unreferenced wrapper under the task's key around the decoded bitmap |
| LocalLoaders.SimpleBitmapLoader.OnSuccess | src/main/java/org/level28/android/moca/bitmaps/SimpleBitmapLoader.java:142-150 | every non-null result enters the memory cache as most recent and, being cache-held, is not recycled; it is bound with a null banner tag exactly when the view is alive and still tagged with the key, otherwise the view is untouched |
| Sampling.RoundDiv | src/main/java/org/level28/android/moca/bitmaps/BitmapUtils.java:68-70 | Math.round of a quotient: the result is the integer nearest a / b, halves rounded up |
| Sampling.RoundQuotient | src/main/java/org/level28/android/moca/bitmaps/BitmapUtils.java:67-71 | Math.round of a float quotient: the nearest integer, halves up, for a positive divisor; Integer.MAX_VALUE, 0 or Integer.MIN_VALUE as the dividend is positive, zero or negative for a zero divisor; always an int, never negative for a non-negative dividend |
| Sampling.SearchResult | src/main/java/org/level28/android/moca/bitmaps/BitmapUtils.java:73-79 | when the loop stops at a positive sample size whose square is still an int, the pixel count is within twice the requested count after subsampling by s on each axis |
| Sampling.CalculateInSampleSize | src/main/java/org/level28/android/moca/bitmaps/BitmapUtils.java:58-82 | 1 when no axis exceeds the request; otherwise the first candidate, counting up from the shorter-axis start value with int wrap-around, at which the image is not too large, every earlier candidate having been too large; then SearchResult's bound, and for a non-empty image and a start value up to 46341 a result between the start and 46341 and at least 1 |
| Sampling.UnsizedRequest | src/main/java/org/level28/android/moca/bitmaps/BitmapUtils.java:65-79 | for a 0x0 request and a non-empty image the search starts at Integer.MAX_VALUE and its result is Integer.MIN_VALUE + 46341, a negative sample size |
| ScalingLoaders.DiskCacheName | src/main/java/org/level28/android/moca/bitmaps/ScalingBitmapLoader.java:37-46 | getDiskCacheName returns DISK_CACHE_SUBDIR, bitmaps/local: one directory under the bitmaps cache root |
| ScalingLoaders.ResourceUrl | src/main/java/org/level28/android/moca/bitmaps/ScalingBitmapLoader.java:56-58 | Integer.toHexString of a 32-bit id has between one and eight digits |
| ScalingLoaders.LoadMissing | src/main/java/org/level28/android/moca/bitmaps/ScalingBitmapLoader.java:64-77 | a url Integer.valueOf(url, 16) rejects fails with NumberFormatException; otherwise the result is the decoder's for the parsed id |
| ScalingLoaders.ResourceUrlRoundTrip | src/main/java/org/level28/android/moca/bitmaps/ScalingBitmapLoader.java:56-66 | a non-negative id survives toHexString followed by valueOf(url, 16), so its task decodes that very resource |
| ScalingLoaders.NegativeResourceRejected | src/main/java/org/level28/android/moca/bitmaps/ScalingBitmapLoader.java:56-66 | a negative id prints as eight digits above 0x7fffffff, which valueOf rejects, so its task fails with NumberFormatException |
| AsyncTasks.Post | src/main/java/org/level28/android/moca/util/SafeAsyncTask.java:381-405 | an Exception from the posted callback is rethrown on the worker, and only an Exception; a non-Exception Throwable escapes on the UI thread instead |
| AsyncTasks.Handler | src/main/java/org/level28/android/moca/util/SafeAsyncTask.java:299-369 | InterruptedException and InterruptedIOException go to onInterrupted, other Exceptions to onException, other Throwables to onThrowable |
| AsyncTasks.FinallyAlwaysLast | src/main/java/org/level28/android/moca/util/SafeAsyncTask.java:295-318 | onPreExecute runs first and onFinally exactly once, last, whatever any callback throws |
| AsyncTasks.SuccessIffNoFailure | src/main/java/org/level28/android/moca/util/SafeAsyncTask.java:296-298 | onSuccess runs if and only if neither onPreExecute nor call() threw an Exception, and then right after them |
| AsyncTasks.FailureRoutedBeforeFinally | src/main/java/org/level28/android/moca/util/SafeAsyncTask.java:299-315 | after a failure onSuccess is skipped and the failure's handler runs just before onFinally |
| AsyncTasks.SuccessExceptionHandled | src/main/java/org/level28/android/moca/util/SafeAsyncTask.java:298-305 | an Exception thrown by onSuccess is routed to its handler, then onFinally runs |
| AsyncTasks.CleanRun | src/main/java/org/level28/android/moca/util/SafeAsyncTask.java:295-318 | a run where nothing throws calls onPreExecute, call, onSuccess and onFinally, nothing escapes and call() returns normally |
| AsyncTasks.OneHandlerAtMost | src/main/java/org/level28/android/moca/util/SafeAsyncTask.java:299-317 | at most one error handler runs per task, and call() throws only what onFinally throws |
| AsyncTasks.Chain | src/main/java/org/level28/android/moca/util/SafeAsyncTask.java:238-268 | the default hooks delegate onInterrupted to onException to onThrowable, stopping at the first overridden one |
| AsyncTasks.DefaultChain | src/main/java/org/level28/android/moca/util/SafeAsyncTask.java:238-268 | with no override an interruption reaches onException and then onThrowable |
| AsyncTasks.FetchTaskChain | src/main/java/org/level28/android/moca/bitmaps/AbstractBitmapLoader.java:363-373 | the bitmap task overrides onInterrupted and onException, so neither reaches the default onThrowable |
| AsyncTasks.FutureTask.constructor | src/main/java/org/level28/android/moca/util/SafeAsyncTask.java:290-293 | a new future is pending and keeps the handler its task captured |
| AsyncTasks.FutureTask.Cancel | src/main/java/org/level28/android/moca/util/SafeAsyncTask.java:201-205 | cancel succeeds exactly on a pending future, which becomes cancelled with the given interrupt flag; otherwise nothing changes |
| AsyncTasks.FutureTask.Complete | src/main/java/org/level28/android/moca/util/SafeAsyncTask.java:182-185 | running to the end completes a pending future and leaves a cancelled or completed one alone |
| AsyncTasks.SafeAsyncTask.constructor | src/main/java/org/level28/android/moca/util/SafeAsyncTask.java:85-126 | a null handler is replaced by one on the main looper; the executor is kept, and there is no future or launch location yet |
| AsyncTasks.SafeAsyncTask.Future | src/main/java/org/level28/android/moca/util/SafeAsyncTask.java:133-136 | future() makes a fresh pending future with the current handler, which replaces the previous one |
| AsyncTasks.SafeAsyncTask.SetExecutor | src/main/java/org/level28/android/moca/util/SafeAsyncTask.java:145-148 | only the executor changes, and the task itself is returned |
| AsyncTasks.SafeAsyncTask.SetHandler | src/main/java/org/level28/android/moca/util/SafeAsyncTask.java:162-165 | only the handler changes, and the task itself is returned |
| AsyncTasks.SafeAsyncTask.Execute | src/main/java/org/level28/android/moca/util/SafeAsyncTask.java:177-185 | the launch location is recorded and a fresh pending future is submitted to the executor and becomes the current one |
| AsyncTasks.SafeAsyncTask.Cancel | src/main/java/org/level28/android/moca/util/SafeAsyncTask.java:201-205 | before any future() the call throws IllegalStateException; otherwise the current future's cancel, whose result says whether it was pending |
| AsyncTasks.ExecuteTwiceThenCancel | src/main/java/org/level28/android/moca/util/SafeAsyncTask.java:177-205 | executing twice submits two distinct futures, and cancel reaches only the second |
| ExceptionLoaders.ExceptionLoader.constructor | src/main/java/org/level28/android/moca/ExceptionLoader.java:52-55 | a new loader keeps the default data and holds no exception |
| ExceptionLoaders.ExceptionLoader.LoadInBackground | src/main/java/org/level28/android/moca/ExceptionLoader.java:58-69 | a successful load returns its data and clears the stored exception; a failing one returns the default data and stores the exception |
| ExceptionLoaders.ExceptionLoader.GetException | src/main/java/org/level28/android/moca/ExceptionLoader.java:74-76 | getException reports the stored exception and changes nothing |
| ExceptionLoaders.ExceptionLoader.ClearException | src/main/java/org/level28/android/moca/ExceptionLoader.java:81-85 | the stored exception is returned and forgotten |
| ExceptionLoaders.LoadThenClearTwice | src/main/java/org/level28/android/moca/ExceptionLoader.java:58-85 | after a failed load the first clear returns the exception and the second returns null |
| JavaLang.WrapInt | src/main/java/org/level28/android/moca/model/FaqEntry.java:60-68 | the int that 32-bit two's-complement arithmetic yields: always in int range, congruent to the exact value modulo 2^32, and the exact value itself when that fits |
| JavaLang.WrapIntCongruent | src/main/java/org/level28/android/moca/model/FaqEntry.java:60-68 | values congruent modulo 2^32 wrap to the same int |
| JavaLang.ToBase | src/main/java/org/level28/android/moca/bitmaps/ScalingBitmapLoader.java:57 | the digits of a natural number form a non-empty digit string without sign or separator, with a leading zero only for zero |
| JavaLang.DigitsValueToBase | src/main/java/org/level28/android/moca/bitmaps/ScalingBitmapLoader.java:57-66 | reading the printed digits back gives the number printed |
| JavaLang.ToBaseInjective | src/main/java/org/level28/android/moca/bitmaps/ScalingBitmapLoader.java:57 | distinct numbers print differently in any radix |
| JavaLang.ToDecimal | src/main/java/org/level28/android/moca/provider/ScheduleContract.java:98-121 | Integer.toString gives a non-empty string containing neither ':' nor 'x', which the key string formats rely on |
| JavaLang.ToDecimalSign | src/main/java/org/level28/android/moca/provider/ScheduleContract.java:98-121 | the string starts with '-' exactly for a negative number, and the magnitude's digits follow |
| JavaLang.ToDecimalInjective | src/main/java/org/level28/android/moca/provider/ScheduleContract.java:98-121 | distinct numbers have distinct decimal strings |
| JavaLang.ToHexString | src/main/java/org/level28/android/moca/bitmaps/ScalingBitmapLoader.java:57 | Integer.toHexString prints an int's unsigned 32-bit value in one to eight lower-case hexadecimal digits |
| JavaLang.ToBaseLength | src/main/java/org/level28/android/moca/bitmaps/ScalingBitmapLoader.java:57 | a number below radix^k has at most k digits |
| JavaLang.ParseInt | src/main/java/org/level28/android/moca/bitmaps/ScalingBitmapLoader.java:66 | Integer.valueOf(s, radix) gives an int when it succeeds, fails only with NumberFormatException, and rejects the empty string and a lone '-' |
| JavaLang.HexRoundTrip | src/main/java/org/level28/android/moca/bitmaps/ScalingBitmapLoader.java:57-66 | parsing toHexString(n) in radix 16 returns n for every non-negative int and fails with NumberFormatException for every negative one |
| JavaLang.Utf16 | src/main/java/org/level28/android/moca/model/FaqEntry.java:60-68 | a string's UTF-16 code units are 16-bit values, at least one per character |
| JavaLang.HashUnits | src/main/java/org/level28/android/moca/model/FaqEntry.java:60-68 | the h = 31 * h + unit loop of String.hashCode stays in int range |
| JavaLang.StringHash | src/main/java/org/level28/android/moca/model/FaqEntry.java:60-68 | String.hashCode is an int |
| JavaLang.HashIsWrappedPolynomial | src/main/java/org/level28/android/moca/model/FaqEntry.java:60-68 | wrapping after every step of the hash loop gives the same int as wrapping the exact polynomial once |
| Json.Path | src/main/java/org/level28/android/moca/json/FaqDeserializer.java:68-69 | path(name) is present exactly for a member of an object, and then it is that member |
| Json.TextValue | src/main/java/org/level28/android/moca/json/FaqDeserializer.java:76-104 | textValue is non-null exactly for a text node, and then it is the node's text |
| Json.Truncate | src/main/java/org/level28/android/moca/json/TwitterSearchDeserializer.java:110-117 | the double-to-long cast rounds toward zero: the result is the integer at most one away from the value, on the zero side |
| Json.AsLong | src/main/java/org/level28/android/moca/json/TwitterSearchDeserializer.java:106-117 | asLong of a node that canConvertToLong is within the long range |
| FaqEntries.Equals | src/main/java/org/level28/android/moca/model/FaqEntry.java:47-58 | equals holds exactly for an entry with the same four fields, never for null or another class, and equal entries have equal hash codes |
| FaqEntries.HashStep | src/main/java/org/level28/android/moca/model/FaqEntry.java:60-68 | one step of the hash stays in int range |
| FaqEntries.HashCode | src/main/java/org/level28/android/moca/model/FaqEntry.java:60-68 | the hash code is an int |
| FaqEntries.EqualsReflexiveSymmetric | src/main/java/org/level28/android/moca/model/FaqEntry.java:47-58 | equals is reflexive and symmetric |
| FaqEntries.EqualsTransitive | src/main/java/org/level28/android/moca/model/FaqEntry.java:47-58 | equals is transitive |
| FaqEntries.StepOfWrapped | src/main/java/org/level28/android/moca/model/FaqEntry.java:60-68 | wrapping before a further step of the hash changes nothing |
| FaqEntries.HashClosedForm | src/main/java/org/level28/android/moca/model/FaqEntry.java:60-68 | the hash is the exact polynomial 17·31^4 + id·31^3 + hash(category)·31^2 + hash(question)·31 + hash(answer), wrapped once to 32 bits |
| FaqHeaders.FaqAdapter.constructor | src/main/java/org/level28/android/moca/ui/faq/FaqAdapter.java:43-51 | a new adapter shows the given elements and has no header registered |
| FaqHeaders.FaqAdapter.ClearHeaders | src/main/java/org/level28/android/moca/ui/faq/FaqAdapter.java:56-59 | the header set becomes empty and the items are kept |
| FaqHeaders.FaqAdapter.RegisterHeader | src/main/java/org/level28/android/moca/ui/faq/FaqAdapter.java:64-67 | the entry's id joins the header set, so registering twice is the same as once |
| FaqHeaders.FaqAdapter.SetItems | src/main/java/org/level28/android/moca/ui/ItemListAdapter.java:115-118 | setItems replaces the items and keeps the header set |
| FaqHeaders.FaqAdapter.HeaderOf | src/main/java/org/level28/android/moca/ui/faq/FaqAdapter.java:70-77 | the header is shown exactly when the item's id is registered, and it shows the item's category |
| FaqHeaders.SameIdSameVisibility | src/main/java/org/level28/android/moca/ui/faq/FaqAdapter.java:70-77 | two entries with one id show or hide their header together, whatever their categories |
| FaqHeaders.HeaderIdsStep | src/main/java/org/level28/android/moca/ui/faq/FaqFragment.java:77-83 | each loop iteration registers the entry's id exactly when its category differs from the previous one |
| FaqHeaders.HeaderExactlyAtRunStarts | src/main/java/org/level28/android/moca/ui/faq/FaqFragment.java:77-83 | with distinct ids an entry shows a header if and only if it starts a run of one category, the first entry being compared with "" |
| FaqHeaders.NewHeaderId | src/main/java/org/level28/android/moca/ui/faq/FaqFragment.java:77-83 | with distinct ids a run start's id is not yet registered |
| FaqHeaders.HeaderCountUpTo | src/main/java/org/level28/android/moca/ui/faq/FaqFragment.java:77-83 | with distinct ids the number of registered headers is the number of run starts seen so far |
| FaqHeaders.ChangesCount | src/main/java/org/level28/android/moca/ui/faq/FaqFragment.java:77-83 | the run starts are the first entry (unless its category is "") plus every category change |
| FaqHeaders.HeaderCount | src/main/java/org/level28/android/moca/ui/faq/FaqFragment.java:69-84 | with distinct ids there is one header per maximal run of equal categories, one fewer when the first category is "", and a category that recurs later gets a second header |
| FaqHeaders.FaqFragment.constructor | src/main/java/org/level28/android/moca/ui/faq/FaqFragment.java:61-67 | a new fragment has the given adapter and no items |
| FaqHeaders.FaqFragment.UpdateCategoryHeaders | src/main/java/org/level28/android/moca/ui/faq/FaqFragment.java:69-84 | a null adapter or null entries change nothing; otherwise the header set becomes exactly the ids of the run starts and the items are kept |
| FaqHeaders.FaqFragment.OnLoadFinished | src/main/java/org/level28/android/moca/ui/faq/FaqFragment.java:127-133 | the headers are recomputed from the new items, which are then stored; a null adapter or null items throw NullPointerException |
| FaqJson.EntryOf | src/main/java/org/level28/android/moca/json/FaqDeserializer.java:86-105 | an entry is built exactly from an object with text "q" and "a", carrying the id given and the group's category; anything else throws JsonDeserializerException |
| FaqJson.FaqFromTree | src/main/java/org/level28/android/moca/json/FaqDeserializer.java:44-55 | a tree that failed to read, or a root that is not an array, stops the read at once with JsonDeserializerException, no entry built and the tally untouched |
| FaqJson.WrapSucc | src/main/java/org/level28/android/moca/json/FaqDeserializer.java:41-103 | post-incrementing the int tally wraps like counting exactly and wrapping once |
| FaqJson.StepEntryNumbered | src/main/java/org/level28/android/moca/json/FaqDeserializer.java:103 | one entry keeps the ids consecutive from the start and the tally just past them |
| FaqJson.EntriesRunNumbered | src/main/java/org/level28/android/moca/json/FaqDeserializer.java:78-80 | the inner loop keeps the ids consecutive and the tally just past them |
| FaqJson.GroupsRunNumbered | src/main/java/org/level28/android/moca/json/FaqDeserializer.java:59-81 | the outer loop keeps the ids consecutive and the tally just past them |
| FaqJson.IdsConsecutive | src/main/java/org/level28/android/moca/json/FaqDeserializer.java:41-105 | whatever the outcome, the entries built carry the ids start, start+1, ... in int arithmetic and the tally ends just past the last, so a failure uses up the ids of the entries built before it |
| FaqJson.IdsDistinct | src/main/java/org/level28/android/moca/json/FaqDeserializer.java:41-105 | while the numbering stays within Integer.MAX_VALUE the entries of one read have distinct ids |
| FaqJson.Contents | src/main/java/org/level28/android/moca/json/FaqDeserializer.java:103-104 | forgetting the ids keeps one content triple per entry |
| FaqJson.GroupContents | src/main/java/org/level28/android/moca/json/FaqDeserializer.java:76-80 | a group contributes one triple per element of its "faqs", each tagged with its category |
| FaqJson.ContentsAppend | src/main/java/org/level28/android/moca/json/FaqDeserializer.java:79 | appending an entry appends its content triple |
| FaqJson.EntriesRunContents | src/main/java/org/level28/android/moca/json/FaqDeserializer.java:78-80 | an inner loop that ends without error appends its group's triples, in order |
| FaqJson.GroupsRunContents | src/main/java/org/level28/android/moca/json/FaqDeserializer.java:59-81 | an outer loop that ends without error appends every group's triples, in document order |
| FaqJson.DocumentContentsLength | src/main/java/org/level28/android/moca/json/FaqDeserializer.java:59-81 | the flattened document has as many triples as the "faqs" arrays have elements together |
| FaqJson.FlattenedInOrder | src/main/java/org/level28/android/moca/json/FaqDeserializer.java:44-84 | a read without error had an array root, and its entries are every group's entries in document order, each tagged with its group's category, as many as the "faqs" arrays hold |
| FaqJson.EntriesRunStopped | src/main/java/org/level28/android/moca/json/FaqDeserializer.java:78-80 | once stopped, the inner loop builds nothing more |
| FaqJson.GroupsRunStopped | src/main/java/org/level28/android/moca/json/FaqDeserializer.java:59-81 | once stopped, the outer loop builds nothing more |
| FaqJson.EntriesRunErrors | src/main/java/org/level28/android/moca/json/FaqDeserializer.java:86-101 | the inner loop fails only with JsonDeserializerException |
| FaqJson.GroupsRunErrors | src/main/java/org/level28/android/moca/json/FaqDeserializer.java:59-81 | the outer loop fails only with JsonDeserializerException |
| FaqJson.FaqErrors | src/main/java/org/level28/android/moca/json/FaqDeserializer.java:44-105 | the only exception the FAQ read throws is JsonDeserializerException |
| FaqJson.BadGroupStops | src/main/java/org/level28/android/moca/json/FaqDeserializer.java:60-74 | a malformed group fails the read, whatever groups follow it |
| FaqJson.GroupsRunSuffix | src/main/java/org/level28/android/moca/json/FaqDeserializer.java:59-81 | reading the groups a + b is reading a, then b from where a left the list and the tally |
| FaqJson.FaqDeserializer.constructor | src/main/java/org/level28/android/moca/json/FaqDeserializer.java:41 | a new deserializer numbers from 1 |
| FaqJson.FaqDeserializer.FromInputStream | src/main/java/org/level28/android/moca/json/FaqDeserializer.java:44-84 | the loops give FaqFromTree's entries or exception, and leave the tally where it says |
| FaqJson.FaqDeserializer.ReadEntries | src/main/java/org/level28/android/moca/json/FaqDeserializer.java:78-80 | the inner loop gives EntriesRun's entries or exception, and leaves the tally where it says |
| FaqJson.FaqDeserializer.ParseEntry | src/main/java/org/level28/android/moca/json/FaqDeserializer.java:86-105 | parseEntry gives EntryOf for the current tally, and moves the tally on by one exactly when it builds an entry |
| FaqJson.EntriesRunSuffix | src/main/java/org/level28/android/moca/json/FaqDeserializer.java:78-80 | reading a group's entries a + b is reading a, then b |
| FaqJson.StopAfter | src/main/java/org/level28/android/moca/json/FaqDeserializer.java:59-81 | when group i stops the read, the whole read is the read up to and including group i |
| FaqJson.ReadTwice | src/main/java/org/level28/android/moca/json/FaqDeserializer.java:41-103 | a second document read by the same instance is numbered from where the first read left the tally |
| HomeJson.SectionsOf | src/main/java/org/level28/android/moca/json/HomeDeserializer.java:55-73 | the loop fails only with JsonDeserializerException |
| HomeJson.HomeFromTree | src/main/java/org/level28/android/moca/json/HomeDeserializer.java:41-53 | a tree that failed to read, or a root that is not an array, throws JsonDeserializerException, the only exception of the read |
| HomeJson.SectionsExactly | src/main/java/org/level28/android/moca/json/HomeDeserializer.java:55-73 | the read succeeds exactly when every element is an object with text "header" and "contents", and then gives one section per element, in order |
| HomeJson.FromInputStream | src/main/java/org/level28/android/moca/json/HomeDeserializer.java:41-74 | the loop's result is HomeFromTree's |
| HomeJson.SectionsFailureSticks | src/main/java/org/level28/android/moca/json/HomeDeserializer.java:56-68 | once a prefix of the array fails, the whole array fails with the same exception |
| TwitterJson.ProfileImage | src/main/java/org/level28/android/moca/json/TwitterSearchDeserializer.java:199-208 | the https image url when it is text, else the plain url when that is text, else JsonDeserializerException |
| TwitterJson.TweetOf | src/main/java/org/level28/android/moca/json/TwitterSearchDeserializer.java:152-230 | parseSingleTweet fails only with JsonDeserializerException, the date parser's failure included |
| TwitterJson.TweetAccepts | src/main/java/org/level28/android/moca/json/TwitterSearchDeserializer.java:152-230 | a tweet parses exactly when it is an object with parsable text "created_at", text "from_user" and "text", long-convertible "from_user_id" and "id" and a text image url; then the user name and location are null unless text, and both ids are in long range |
| TwitterJson.TweetsOf | src/main/java/org/level28/android/moca/json/TwitterSearchDeserializer.java:135-138 | the results loop fails only with JsonDeserializerException |
| TwitterJson.TweetsAllParse | src/main/java/org/level28/android/moca/json/TwitterSearchDeserializer.java:135-138 | the results loop succeeds if and only if every element parses |
| TwitterJson.TweetsInOrder | src/main/java/org/level28/android/moca/json/TwitterSearchDeserializer.java:135-139 | a successful loop gives one tweet per element, in array order, each the tweet its element parses to |
| TwitterJson.ReplyFromTree | src/main/java/org/level28/android/moca/json/TwitterSearchDeserializer.java:61-147 | the read fails only with JsonDeserializerException, and succeeds exactly when the tree was read, the metadata checks pass and every result parses |
| TwitterJson.ReplyContents | src/main/java/org/level28/android/moca/json/TwitterSearchDeserializer.java:82-146 | a successful read carries the root's query, ids in long range, int page fields, one tweet per result in order, and a next page exactly when "next_page" is text |
| TwitterJson.FromInputStream | src/main/java/org/level28/android/moca/json/TwitterSearchDeserializer.java:61-147 | the checks, setters and loop give ReplyFromTree's result |
| TwitterJson.TweetsFailureSticks | src/main/java/org/level28/android/moca/json/TwitterSearchDeserializer.java:135-138 | once a prefix of the results fails, the whole read fails with the same exception |
| ScheduleJson.Texts | src/main/java/org/level28/android/moca/json/ScheduleDeserializer.java:140 | the texts of text nodes, one per node, in order |
| ScheduleJson.HostsOf | src/main/java/org/level28/android/moca/json/ScheduleDeserializer.java:133-141 | the host list exists exactly when every entry is non-empty text, and is then their texts in order; otherwise JsonDeserializerException |
| ScheduleJson.CollectHosts | src/main/java/org/level28/android/moca/json/ScheduleDeserializer.java:133-141 | the hosts loop gives HostsOf's result |
| ScheduleJson.JoinEmpty | src/main/java/org/level28/android/moca/json/ScheduleDeserializer.java:142 | joining non-empty host names is empty exactly when there are none |
| ScheduleJson.JoinStartsWithFirst | src/main/java/org/level28/android/moca/json/ScheduleDeserializer.java:142 | the joined string starts with the first host name |
| ScheduleJson.TextField | src/main/java/org/level28/android/moca/json/ScheduleDeserializer.java:88-101 | a required member is read exactly when it is text, and is then its text; otherwise JsonDeserializerException |
| ScheduleJson.TimeField | src/main/java/org/level28/android/moca/json/ScheduleDeserializer.java:112-171 | a time is read exactly when the member is text and parse3339 accepts it; a non-text member throws JsonDeserializerException and an unparsable text TimeFormatException |
| ScheduleJson.Wrapped | src/main/java/org/level28/android/moca/json/ScheduleDeserializer.java:159-161 | a setter's IllegalArgumentException becomes JsonDeserializerException and any other exception passes unchanged |
| ScheduleJson.SessionFromJson | src/main/java/org/level28/android/moca/json/ScheduleDeserializer.java:72-162 | a session parsed from an element satisfies the setters' validation, and the only exceptions are JsonDeserializerException and TimeFormatException |
| ScheduleJson.SessionAccepts | src/main/java/org/level28/android/moca/json/ScheduleDeserializer.java:72-162 | an element parses exactly when it is an object with non-empty text id and title, an int day, parsable start and end, at least one non-empty host and a language "it" or "en" in any case |
| ScheduleJson.SessionContents | src/main/java/org/level28/android/moca/json/ScheduleDeserializer.java:88-156 | the parsed session carries the element's id, title, day, parsed start and end, hosts joined with ", ", language, and the abstract's text when the member is present |
| ScheduleJson.TimeFormatOnlyFromTimes | src/main/java/org/level28/android/moca/json/ScheduleDeserializer.java:117-171 | TimeFormatException comes only from a start or end that is text parse3339 rejects |
| ScheduleJson.ParseSession | src/main/java/org/level28/android/moca/json/ScheduleDeserializer.java:72-162 | parseSession returns a fresh session holding SessionFromJson's fields, or throws its exception |
| ScheduleJson.ScheduleFromTree | src/main/java/org/level28/android/moca/json/ScheduleDeserializer.java:49-60 | a tree that failed to read, or a root that is not an array, throws JsonDeserializerException |
| ScheduleJson.ScheduleKeyedById | src/main/java/org/level28/android/moca/json/ScheduleDeserializer.java:62-69 | every session of a parsed schedule is valid and filed under its own id |
| ScheduleJson.ScheduleErrors | src/main/java/org/level28/android/moca/json/ScheduleDeserializer.java:49-162 | only JsonDeserializerException and TimeFormatException escape the read |
| ScheduleJson.FirstFailureWins | src/main/java/org/level28/android/moca/json/ScheduleDeserializer.java:64-67 | the first element that fails decides the outcome, whatever follows |
| ScheduleJson.ScheduleEveryElement | src/main/java/org/level28/android/moca/json/ScheduleDeserializer.java:64-67 | a schedule that parses had every element parse |
| ScheduleJson.ElementIdIsKey | src/main/java/org/level28/android/moca/json/ScheduleDeserializer.java:64-67 | every element's id is a key of the parsed map |
| ScheduleJson.KeyIsSomeId | src/main/java/org/level28/android/moca/json/ScheduleDeserializer.java:64-67 | every key of the parsed map is some element's id |
| ScheduleJson.ScheduleKeys | src/main/java/org/level28/android/moca/json/ScheduleDeserializer.java:62-69 | the keys of a parsed schedule are exactly the ids of its elements |
| ScheduleJson.LaterElementWins | src/main/java/org/level28/android/moca/json/ScheduleDeserializer.java:64-67 | a key maps to the session of the last element with that id: put overwrites earlier duplicates |
| ScheduleJson.FromInputStream | src/main/java/org/level28/android/moca/json/ScheduleDeserializer.java:49-70 | the read fails exactly as ScheduleFromTree does; on success it has the same keys and each holds a fresh session with ScheduleFromTree's fields |
| Sessions.LanguageName | src/main/java/org/level28/android/moca/model/Session.java:38-40 | Language.toString is the two-letter constant name |
| Sessions.ToUpperUS | src/main/java/org/level28/android/moca/model/Session.java:174-176 | upper-casing keeps the length and maps each character on its own |
| Sessions.ParseLanguage | src/main/java/org/level28/android/moca/model/Session.java:174-176 | a null language throws NullPointerException, and any other rejection is IllegalArgumentException |
| Sessions.UpperLetter | src/main/java/org/level28/android/moca/model/Session.java:174-176 | the letters that upper-case to I, T, E and N are exactly their two cases, plus the dotless i for I |
| Sessions.ParseLanguageAccepts | src/main/java/org/level28/android/moca/model/Session.java:174-176 | setLang(String) gives IT exactly for "it" in any letter case (a dotless i counting as an i), EN exactly for "en" in any case, and IllegalArgumentException for every other string |
| Sessions.LanguageRoundTrip | src/main/java/org/level28/android/moca/model/Session.java:174-176 | the name toString writes is read back by setLang(String) as the same language |
| Sessions.FirstRejection | src/main/java/org/level28/android/moca/model/Session.java:94-105 | the full constructor accepts exactly non-empty id, title and hosts, a day in 1..3 and a parsable language; it throws NullPointerException exactly when only the language is null, and otherwise IllegalArgumentException |
| Sessions.Session.constructor | src/main/java/org/level28/android/moca/model/Session.java:85-87 | an empty session has every reference null and every number zero |
| Sessions.Session.SetId | src/main/java/org/level28/android/moca/model/Session.java:111-117 | a null or empty id throws IllegalArgumentException and changes nothing; otherwise only the id changes; validity is kept |
| Sessions.Session.SetTitle | src/main/java/org/level28/android/moca/model/Session.java:123-129 | a null or empty title throws IllegalArgumentException and changes nothing; otherwise only the title changes; validity is kept |
| Sessions.Session.SetDay | src/main/java/org/level28/android/moca/model/Session.java:135-140 | a day outside 1..3 throws IllegalArgumentException and changes nothing; otherwise only the day changes; validity is kept |
| Sessions.Session.SetStartTime | src/main/java/org/level28/android/moca/model/Session.java:146-148 | only the start time changes, unchecked |
| Sessions.Session.SetEndTime | src/main/java/org/level28/android/moca/model/Session.java:154-156 | only the end time changes, unchecked |
| Sessions.Session.SetHosts | src/main/java/org/level28/android/moca/model/Session.java:162-168 | null or empty hosts throw IllegalArgumentException and change nothing; otherwise only the hosts change; validity is kept |
| Sessions.Session.SetLang | src/main/java/org/level28/android/moca/model/Session.java:174-176 | the language is stored exactly when ParseLanguage accepts the string, whose exception otherwise escapes with nothing changed |
| Sessions.Session.SetLanguage | src/main/java/org/level28/android/moca/model/Session.java:178-180 | only the language changes, and null is stored as given |
| Sessions.Session.SetSessionAbstract | src/main/java/org/level28/android/moca/model/Session.java:186-188 | only the abstract changes, null allowed |
| Sessions.Session.Create | src/main/java/org/level28/android/moca/model/Session.java:94-105 | the constructor throws exactly FirstRejection's exception; otherwise the fresh session is valid and holds the arguments, the language parsed |
| SyncAdapters.ReachOf | src/main/java/org/level28/android/moca/sync/SyncAdapter.java:79-108 | an upload request stops at once, and a non-hard-coded account stops at initialization exactly when the request is an initialization that is not an upload |
| SyncAdapters.Bump | src/main/java/org/level28/android/moca/sync/SyncAdapter.java:96-123 | an authentication stop adds one authentication error, an IOException from the helper one I/O error and a JsonDeserializerException one parse error; nothing else is counted, at most one counter moves and none goes down |
| SyncAdapters.SyncResult.constructor | src/main/java/org/level28/android/moca/sync/SyncAdapter.java:77 | the result holds the given counters |
| SyncAdapters.SyncAdapter.constructor | src/main/java/org/level28/android/moca/sync/SyncAdapter.java:111 | a new adapter has no sync helper yet |
| SyncAdapters.SyncAdapter.OnPerformSync | src/main/java/org/level28/android/moca/sync/SyncAdapter.java:74-124 | the counters move as Bump says; setIsSyncable is called exactly for a non-upload initialization, with 1 exactly for the hard-coded account; the helper is created on first sync and kept afterwards; only exceptions other than IOException and JsonDeserializerException escape |
| SyncAdapters.SyncTwice | src/main/java/org/level28/android/moca/sync/SyncAdapter.java:111-113 | two syncs on one adapter use one helper |
| SessionSync.Get | src/main/java/org/level28/android/moca/sync/SessionHelper.java:111-114 | map.get finds a value exactly for a key of the map, and it is stored under that key |
| SessionSync.OnlyOnLeft | src/main/java/org/level28/android/moca/sync/SessionHelper.java:81-96 | entriesOnlyOnLeft holds local entries whose id the remote map lacks, and every such entry |
| SessionSync.OnlyOnRight | src/main/java/org/level28/android/moca/sync/SessionHelper.java:81-97 | entriesOnlyOnRight holds remote entries whose id the local map lacks, and every such entry |
| SessionSync.Differing | src/main/java/org/level28/android/moca/sync/SessionHelper.java:81-114 | each differing entry carries the remote map's value for its id |
| SessionSync.ValuesOf | src/main/java/org/level28/android/moca/sync/SessionHelper.java:116-175 | the values written are the session's own title, day, times, hosts and abstract, its language's name, and UPDATED = now |
| SessionSync.UpdateOps | src/main/java/org/level28/android/moca/sync/SessionHelper.java:106-134 | one update per differing entry, in order, selecting the id and carrying the remote session's values |
| SessionSync.DeleteOps | src/main/java/org/level28/android/moca/sync/SessionHelper.java:139-152 | one delete per stale id, in order |
| SessionSync.InsertOps | src/main/java/org/level28/android/moca/sync/SessionHelper.java:157-179 | one insert per new session, in order, carrying the session's own id and values |
| SessionSync.DifferingMembers | src/main/java/org/level28/android/moca/sync/SessionHelper.java:81-95 | an id is among the differing entries with remote value v exactly when both maps hold it, the remote one under v, and the two values are not equal |
| SessionSync.DeleteOpsMembers | src/main/java/org/level28/android/moca/sync/SessionHelper.java:144-148 | there is a delete for k exactly when k is a stale id |
| SessionSync.OnlyOnLeftKeys | src/main/java/org/level28/android/moca/sync/SessionHelper.java:81-96 | the stale ids are exactly the ids only the local map holds |
| SessionSync.StaleKeyIsLocal | src/main/java/org/level28/android/moca/sync/SessionHelper.java:96 | a stale id is local and not remote |
| SessionSync.LocalKeyIsStale | src/main/java/org/level28/android/moca/sync/SessionHelper.java:96 | a local id the remote map lacks is stale |
| SessionSync.AddedKeyedById | src/main/java/org/level28/android/moca/sync/SessionHelper.java:162-165 | the new sessions stay filed under their own ids, so the insert's SESSION_ID is the map key |
| SessionSync.UpdateOpsMembers | src/main/java/org/level28/android/moca/sync/SessionHelper.java:111-130 | an update (k, v) is produced exactly for a differing entry under k whose values are v |
| SessionSync.InsertOpsMembers | src/main/java/org/level28/android/moca/sync/SessionHelper.java:162-175 | an insert (k, v) is produced exactly for a new entry under k whose values are v |
| SessionSync.BatchParts | src/main/java/org/level28/android/moca/sync/SessionHelper.java:95-97 | each operation of a non-empty batch comes from the part of the split that its kind belongs to |
| SessionSync.EmptyReplyKeepsLocal | src/main/java/org/level28/android/moca/sync/SessionHelper.java:78-100 | an empty server reply gives an empty batch, so the local table is never wiped |
| SessionSync.DifferingUnique | src/main/java/org/level28/android/moca/sync/SessionHelper.java:81-95 | over a local map with distinct ids, entriesDiffering has distinct ids, each one a local id |
| SessionSync.OnlyOnLeftUnique | src/main/java/org/level28/android/moca/sync/SessionHelper.java:81-96 | over a local map with distinct ids, entriesOnlyOnLeft has distinct ids, each one a local id |
| SessionSync.OnlyOnRightUnique | src/main/java/org/level28/android/moca/sync/SessionHelper.java:81-97 | over a remote map with distinct ids, entriesOnlyOnRight has distinct ids, each one a remote id |
| SessionSync.OneOpPerId | src/main/java/org/level28/android/moca/sync/SessionHelper.java:78-97 | for maps with distinct keys, and remote values keyed by their own id, no two operations of the batch are about the same session id: updates are on ids both sides hold, deletes on local-only ids and inserts on remote-only ids |
| SessionSync.BatchOrder | src/main/java/org/level28/android/moca/sync/SessionHelper.java:95-97 | the batch holds every update, then every delete, then every insert |
| SessionSync.DeletesExactlyStale | src/main/java/org/level28/android/moca/sync/SessionHelper.java:78-101 | with a non-empty reply there is a delete for id k exactly when only the local snapshot holds k |
| SessionSync.InsertsOnlyNew | src/main/java/org/level28/android/moca/sync/SessionHelper.java:78-101 | every insert is for an id only the server holds, carrying that session's fields |
| SessionSync.InsertInBatch | src/main/java/org/level28/android/moca/sync/SessionHelper.java:97 | every insert comes from an entry only the server holds, with its values |
| SessionSync.InsertsEveryNew | src/main/java/org/level28/android/moca/sync/SessionHelper.java:78-101 | every server session whose id the local snapshot lacks gets an insert with its fields |
| SessionSync.UpdateInBatch | src/main/java/org/level28/android/moca/sync/SessionHelper.java:95 | the updates are exactly the differing entries with their values |
| SessionSync.UpdatesOnlyDiffering | src/main/java/org/level28/android/moca/sync/SessionHelper.java:78-101 | every update is for an id both sides hold under unequal values, and carries the server's fields |
| SessionSync.UpdatesEveryDiffering | src/main/java/org/level28/android/moca/sync/SessionHelper.java:78-101 | every id both sides hold under unequal values gets an update |
| SessionSync.UpdatesExactlyDiffering | src/main/java/org/level28/android/moca/sync/SessionHelper.java:78-101 | there is an update for id k exactly when both snapshots hold k under unequal values, and it carries the server session's fields |
| SessionSync.IdentityUpdatesEveryCommonId | src/main/java/org/level28/android/moca/sync/SessionHelper.java:81-82 | with Session's inherited identity equals, every id on both sides gets an update whenever the snapshots share no object |
| SessionSync.RemoteSessions | src/main/java/org/level28/android/moca/sync/SessionHelper.java:184-204 | a 200 reply gives the parsed body or its exception, a 304 an empty map, and any other status an IOException |
| SessionSync.SessionHelper.constructor | src/main/java/org/level28/android/moca/sync/SessionHelper.java:56-62 | the helper keeps the clock reading it was built with as its timestamp |
| SessionSync.SessionHelper.CreateUpdateOps | src/main/java/org/level28/android/moca/sync/SessionHelper.java:106-134 | the loop gives UpdateOps of the differing entries |
| SessionSync.SessionHelper.CreateDeleteOps | src/main/java/org/level28/android/moca/sync/SessionHelper.java:139-152 | the loop gives DeleteOps of the stale entries |
| SessionSync.SessionHelper.CreateInsertOps | src/main/java/org/level28/android/moca/sync/SessionHelper.java:157-179 | the loop gives InsertOps of the new entries |
| SessionSync.SessionHelper.SynchronizeSessions | src/main/java/org/level28/android/moca/sync/SessionHelper.java:68-101 | a failed fetch fails the sync with its exception; otherwise the batch is the diff of the snapshot against the reply under identity equals |
| ScheduleContracts.AppendPath | src/main/java/org/level28/android/moca/provider/ScheduleContract.java:109-121 | appendPath keeps the authority and adds its segment, except that an empty segment is not seen by getPathSegments |
| ScheduleContracts.ContractConstants | src/main/java/org/level28/android/moca/provider/ScheduleContract.java:40-87 | the sessions URI is content://org.level28.android.moca/sessions, and the two update sentinels are distinct and negative |
| ScheduleContracts.BuildSessionUri | src/main/java/org/level28/android/moca/provider/ScheduleContract.java:109-111 | the session URI keeps the authority; a non-empty id is the one segment after sessions, and an empty id gives the directory URI back |
| ScheduleContracts.BuildSessionsAtDirUri | src/main/java/org/level28/android/moca/provider/ScheduleContract.java:113-116 | the at-time URI is content://org.level28.android.moca/sessions/at/ followed by the decimal time |
| ScheduleContracts.BuildSessionsDayDirUri | src/main/java/org/level28/android/moca/provider/ScheduleContract.java:118-121 | the day URI is content://org.level28.android.moca/sessions/day/ followed by the decimal day |
| ScheduleContracts.BuildAtTimeSelectionArgs | src/main/java/org/level28/android/moca/provider/ScheduleContract.java:101-104 | two arguments, both the decimal time, one for each placeholder of the at-time selection |
| ScheduleContracts.GetSessionId | src/main/java/org/level28/android/moca/provider/ScheduleContract.java:123-125 | segment 1 when the path has two segments or more, IndexOutOfBoundsException otherwise |
| ScheduleContracts.GetSearchQuery | src/main/java/org/level28/android/moca/provider/ScheduleContract.java:127-129 | segment 2 when the path has three segments or more, IndexOutOfBoundsException otherwise |
| ScheduleContracts.SessionUriRoundTrip | src/main/java/org/level28/android/moca/provider/ScheduleContract.java:109-125 | getSessionId reads back the non-empty id buildSessionUri was given; an empty id leaves no segment to read |
| ScheduleContracts.AtDirRoundTrip | src/main/java/org/level28/android/moca/provider/ScheduleContract.java:113-129 | the at-time URI is sessions/at/time and getSearchQuery reads the decimal time back |
| ScheduleContracts.DayDirRoundTrip | src/main/java/org/level28/android/moca/provider/ScheduleContract.java:118-129 | the day URI is sessions/day/day and getSearchQuery reads the decimal day back |
| ScheduleContracts.DirUrisInjective | src/main/java/org/level28/android/moca/provider/ScheduleContract.java:113-121 | distinct times give distinct at-time URIs and distinct days distinct day URIs |
| ScheduleProviders.Match | src/main/java/org/level28/android/moca/provider/ScheduleProvider.java:58-74 | the matcher returns one of the four codes or NO_MATCH, and a code only for this authority and a path of one to three segments under "sessions" |
| ScheduleProviders.MatchExactly | src/main/java/org/level28/android/moca/provider/ScheduleProvider.java:64-74 | each code is reached by exactly the paths of its pattern and of its length: sessions, sessions/at/ANY, sessions/day/ANY and sessions/ANY other than at and day |
| ScheduleProviders.LongerPathsUnrouted | src/main/java/org/level28/android/moca/provider/ScheduleProvider.java:64-74 | a sessions path longer than three segments, or with a third segment under an item, matches nothing |
| ScheduleProviders.BuiltUrisRoute | src/main/java/org/level28/android/moca/provider/ScheduleProvider.java:64-74 | the contract's URIs land on their routes; an empty id lands on the directory, and the ids "at" and "day" match nothing |
| ScheduleProviders.UnroutedUris | src/main/java/org/level28/android/moca/provider/ScheduleProvider.java:64-74 | the base URI and foreign authorities match nothing |
| ScheduleProviders.GetType | src/main/java/org/level28/android/moca/provider/ScheduleProvider.java:89-102 | the directory type for 100, 101 and 102, the item type for 103, and UnsupportedOperationException exactly for an unmatched URI |
| ScheduleProviders.BuildSelection | src/main/java/org/level28/android/moca/provider/ScheduleProvider.java:186-211 | every selection is on the sessions table; the directory route has no clause, and an unknown route throws UnsupportedOperationException |
| ScheduleProviders.SelectionOfRoute | src/main/java/org/level28/android/moca/provider/ScheduleProvider.java:186-211 | for the matched route the selection fails only on unmatched URIs; the at route selects start <= t and end >= t, the day route day = d, the item route the id |
| ScheduleProviders.AtTimeSelection | src/main/java/org/level28/android/moca/provider/ScheduleProvider.java:192-197 | the at-time URI's two clause arguments are the contract's selection arguments for the time |
| ScheduleProviders.Insert | src/main/java/org/level28/android/moca/provider/ScheduleProvider.java:115-129 | only the directory accepts inserts; a row without session_id fails the NOT NULL constraint; a failing database's exception propagates; otherwise the result is the URI buildSessionUri builds from session_id, whose getSessionId reads the id |
| ScheduleProviders.OpenFile | src/main/java/org/level28/android/moca/provider/ScheduleProvider.java:213-217 | openFile throws UnsupportedOperationException for every URI |
| ScheduleProviders.BatchInOrder | src/main/java/org/level28/android/moca/provider/ScheduleProvider.java:173-175 | a successful batch has one result per operation, each computed from the results before it and its index |
| ScheduleProviders.BatchFailsAtFirstFailure | src/main/java/org/level28/android/moca/provider/ScheduleProvider.java:173-175 | the batch fails with the exception of the first operation that fails |
| ScheduleProviders.BatchFailureSticks | src/main/java/org/level28/android/moca/provider/ScheduleProvider.java:173-175 | once a prefix of the batch fails, the whole batch fails the same way |
| ScheduleProviders.ApplyBatch | src/main/java/org/level28/android/moca/provider/ScheduleProvider.java:164-181 | the loop's result is BatchOf's, and the transaction is committed exactly when every operation applied |
| ActivityUtil.UriArgument | src/main/java/org/level28/android/moca/util/ActivityUtils.java:43-44 | getParcelable("_uri") with the cast: null for a missing or non-Parcelable value, the Uri for a Uri, ClassCastException for another Parcelable |
| ActivityUtil.FragmentArgumentsToIntent | src/main/java/org/level28/android/moca/util/ActivityUtils.java:40-54 | null arguments give an empty intent; otherwise the data is the "_uri" argument and the extras are every other argument, unchanged |
| ActivityUtil.IntentToFragmentArguments | src/main/java/org/level28/android/moca/util/ActivityUtils.java:59-75 | a null intent gives an empty bundle; otherwise the bundle holds every extra, plus "_uri" holding the data when there is one |
| ActivityUtil.UriExtraOverwritesData | src/main/java/org/level28/android/moca/util/ActivityUtils.java:66-73 | an extra named "_uri" hides the intent's data in the arguments |
| ActivityUtil.IntentRoundTrip | src/main/java/org/level28/android/moca/util/ActivityUtils.java:40-75 | intent to arguments and back gives the same intent when no extra is named "_uri" |
| ActivityUtil.ArgumentsRoundTrip | src/main/java/org/level28/android/moca/util/ActivityUtils.java:40-75 | arguments to intent and back give the same bundle when "_uri" is absent or holds a Uri |
| ActivityUtil.PlainUriArgumentDropped | src/main/java/org/level28/android/moca/util/ActivityUtils.java:40-75 | a non-Parcelable "_uri" argument is lost on the way through an intent |
| Application.SplitLocale | src/main/java/org/level28/android/moca/MocaApp.java:73-76 | the language runs up to the first '_' and the country is the rest, "" when there is no '_' |
| Application.SplitJoin | src/main/java/org/level28/android/moca/MocaApp.java:73-76 | joining a language without '_' to any country with '_' and splitting gives both back |
| Application.SplitKeepsLaterUnderscores | src/main/java/org/level28/android/moca/MocaApp.java:73-76 | only the first '_' separates: the country keeps its own underscores |
| Application.ShouldSwitchLocale | src/main/java/org/level28/android/moca/MocaApp.java:113-119 | never for "SYSTEM"; otherwise exactly when the requested locale differs from the current one |
| Application.NoSwitchWhenSettled | src/main/java/org/level28/android/moca/MocaApp.java:60-119 | the default preference and the locale already in effect never cause a switch |
| Application.MocaApp.constructor | src/main/java/org/level28/android/moca/MocaApp.java:40-48 | before onCreate there is no custom locale and no cache, and the default and resources locales are the system one |
| Application.MocaApp.ChangeLocale | src/main/java/org/level28/android/moca/MocaApp.java:121-127 | the custom locale goes into the configuration, the JVM default and the resources |
| Application.MocaApp.OnCreate | src/main/java/org/level28/android/moca/MocaApp.java:60-82 | a fresh empty cache of the default capacity; then the preference ("SYSTEM" when absent) is split, and the locale is switched everywhere exactly when shouldSwitchLocale says so, nothing else changing otherwise |
| Application.MocaApp.OnConfigurationChanged | src/main/java/org/level28/android/moca/MocaApp.java:51-58 | a custom locale is put back into every new configuration; without one nothing changes |
| Application.MocaApp.OnLowMemory | src/main/java/org/level28/android/moca/MocaApp.java:84-89 | before onCreate the call throws NullPointerException; afterwards the cache keeps exactly the entries some view displays, unchanged and in their old order |

## Left out

- Threads, executors, the UI-thread hand-off and `synchronized` blocks.  Each call is one atomic step, `postToUiThreadAndWait` is a synchronous call, and task completion is an explicit step.
- The network, disk and database I/O.  The HTTP request is its status code and parsed body, and the disk cache maps each key to the bitmap its stored bytes decode to, or to None when they do not decode. Its opening, closing and `getCacheDir` checks are not modelled.  `getWritableDatabase` always succeeds in the model.
- Image decoding, compression and `BitmapUtils.roundCorners` and `decodeSampled*`.  Decoding is a parameter that may fail.  Two wrappers sharing one Bitmap object are not modelled; each wrapper owns its bitmap.
- The eviction of the base `LruCache`.  Its source is not part of this model, so eviction is a separate step that drops the eldest entry; `put` does not itself trim to `maxSize`.
- SHA-1 (FIPS 180-4) is a parameter from bytes to a twenty-byte digest.  The plain `String.getBytes("UTF-8")` encoding is modelled in full.
- `Time.parse3339` (RFC 3339 section 5.6) and the Twitter `SimpleDateFormat` are parameters from strings to an optional instant.
- Jackson's `readTree` is its result: a JSON tree, or None for its IOException.  A null tree is not modelled.
- The `completed_in` double of the Twitter reply, and the coordinates of a tweet.
- MemoryCache.CacheCapacity: the float product is computed in exact reals, so the rounding of the float multiplication is not modelled.
- Sessions.ToUpperUS: upper-cases only the ASCII letters and the dotless i.  Those are the letters on which the language check depends.
- The weak reference to a view is the `viewAlive` parameter of `onSuccess`.
- Logging and `fixupStackTrace` in `SafeAsyncTask`: neither changes a result.
- ScheduleProviders.Insert: the row goes to a database parameter.  Of the table's SQL constraints, only session_id NOT NULL (ScheduleDatabase.java:76) is modelled.  `notifyChange` is not modelled.
- ScheduleProvider's query, update and delete run SQL on SQLite and are not modelled, including the wipe of the whole table at ScheduleProvider.java:145.  `SelectionBuilder`'s internals are its table and list of clauses.
- ScheduleProviders.Match: the framework UriMatcher is modelled for the one table `buildUriMatcher` builds, not as a general tree.
- ScheduleProviders.ApplyBatch: each operation's `apply` is a parameter.  Rollback shows only as the `committed` flag being false.
- ActivityUtil.IntentToFragmentArguments: `Intent.getExtras` returning null is treated as an empty bundle, because `putAll` of either adds nothing.
- SessionSync: the reading of the local snapshot from a cursor and of the remote one from HTTP is not modelled.  The snapshots are inputs, and map iteration order is the order of an input sequence.
- FaqEntries: the strings of an entry are never null, because the only producer fills them all.
- Application.MocaApp.OnCreate: `new Locale(language, country)` is modelled as the pair of strings as split.  Locale's own case normalisation (language to lower case, country to upper case) is not modelled.
- SyncAdapters.OnPerformSync: a connection failure makes HttpRequest throw its unchecked HttpRequestException.  In the model that is a sync outcome of OtherException, which escapes without being counted.  The HTTP model itself is only a status code and a body.
- MemoryCache.SizeOf: the product rowBytes * height is exact; the int overflow of that product for a bitmap over 2 GiB is not modelled.
- BitmapKeys.BitmapKey: SHA-1 is a parameter that always answers, so getBitmapKey's null result on NoSuchAlgorithmException is not modelled.
- JavaLang.ParseInt: accepts the ASCII digits and letters only.  Character.digit also accepts other Unicode digits, which the model rejects.
- Json.AsLong: canConvertToLong compares with the exact long bounds.  Jackson compares in double, where Long.MAX_VALUE rounds up to 2^63, so a double node of exactly 2^63 converts in Jackson (asLong saturates to Long.MAX_VALUE) but not in the model.
- Sampling.CalculateInSampleSize: takes request sizes of at least zero, which is what View.getWidth and getHeight return, and a request whose cap reqWidth * reqHeight * 2 fits in an int.  For a larger request the cap wraps, and the Java loop may never end.  The float rounding of the pixel count and the cap above 2^24 is not modelled.
- The UI widgets, fragments, adapters and activities, apart from the FAQ header bookkeeping and `CacheableImageView`, are not part of this model.

## Findings

| source | as written | input that shows it | evidently intended | confidence | as-written member | corrected member |
|---|---|---|---|---|---|---|
| src/main/java/org/level28/android/moca/bitmaps/AbstractBitmapLoader.java:224-347 | when the L2 entry does not decode, `decodeStream` returns null and `new BitmapWrapper(key, null)` throws IllegalArgumentException.  `call()` catches only IllegalStateException, so the task fails, the entry stays, and every later load of that key fails the same way | an L2 entry under the key whose bytes do not decode, with a network that would return the image | treat an undecodable entry as a miss: fetch from the network and write the result back | not executed | Loaders.L2LookupAsWritten, Loaders.UndecodableEntryIsPermanent, Loaders.UndecodableEntryExample | Loaders.L2Lookup, Loaders.Fetch, Loaders.BitmapLoader.GetFromL2, Loaders.FetchWritesBack, Loaders.BitmapLoader.Call |
