# ImageLoader GIF core, modelled in Dafny

This project models the logic of the ImageLoader library that does not depend on
the UI: the GIF reader, the GIF view's playback timeline and state, and the image
loader's cache-policy choice, task cancellation and completion decision.

- `wrappers.dfy` (module `Wrappers`): `Option`, standing for Swift optionals.
- `image_io.dfy` (module `ImageIO`): the image library at its interface. An opened
  image source is a value. It has a container status, optional container
  properties holding the loop count, and one entry per frame. Each entry has a
  status, optional properties and the image a decode at that index yields. The
  properties are the pixel size and the unclamped and clamped delays. Opening a
  URL is the `Opener` class. It answers each call with the next outcome of a
  script, and fails once the script is used up. It also counts its calls.
- `gif_reader.dfy` (module `GIFReading`): `GIFReader.swift`. Delays, the loop
  count and the reported size are normalised. The delay list and its summaries
  are derived from them. The `GIFReader` class holds the metadata as constants
  and the current source as a field that a reopen replaces. Its lazily computed
  `frames` and `actualGIFSize` are cached fields.
  - `FetchFrame` specifies one call of `frame(at:)`.
  - `WalkFrames` and `Present` specify the lazy frame list.
- `gif_view.dfy` (module `GIFPlayback`): `GIFView.swift`.
  - `CreateAnimation` builds the key times with its loop. It is proved against
    `KeyTimes`, whose properties are lemmas.
  - The `GIFView` class holds the reader, the prepared animation, the animation
    the layer runs and the image it shows.
- `image_loader.dfy` (module `ImageLoading`): `ImageLoader.swift`.

Durations are exact reals. The delays are those of the Graphic Control Extension
(section 23 of the GIF89a specification). The loop count is that of the
NETSCAPE2.0 application extension. Both arrive as the image library reports them.

## Where the code departs from its evident intent

The model follows the code in each case.

- **Key times.** With discrete keyframes, frame `i` shows from key time `i` to
  key time `i + 1`. For each frame to show for its own delay, key time `i`
  should add `delays[i - 1] / total` to key time `i - 1`. The loop at
  `GIFView.swift:105-110` adds `delays[i] / total` instead. So the delays
  `[0.1, 0.2, 0.1]` give `[0, 0.5, 0.75, 1]` rather than `[0, 0.25, 0.75, 1]`
  (`KeyTimesExample`). The effect is that each frame shows for the next frame's
  delay, and the last frame for the first frame's delay (`KeyTimesRotateDelays`).
  `IntendedKeyTimes` is the timeline in which each frame shows for its own
  delay, and `IntendedKeyTimesShares` proves it does so. The view model keeps
  the timeline as written.
- **Zero total.** The code divides by the total without a guard. The model
  requires a non-zero total whenever a division happens, which is when there
  are at least two delays (`CreateAnimation`, `KeyTimes`). `Load` meets this
  because every delay the reader lists is at least 0.01 s.
- **A one-frame GIF keeps the old animation.** `animation` is assigned only when
  the new GIF has more than one frame (`GIFView.swift:62-68`). So after a
  one-frame GIF is loaded in place of an animated one, the view is still ready
  to play, and resuming plays the previous GIF's animation. `GIFView.Load`
  states this as written.

## Model

| member | source | states |
|---|---|---|
| `GIFReading.ProposedDelay` | ImageLoader/Controllers/GIFReader.swift:126-129 | a delay is proposed only from a frame's GIF dictionary: the unclamped delay when present, otherwise the clamped one. With a GIF dictionary, none is proposed exactly when both are missing |
| `GIFReading.FrameDelay` | ImageLoader/Controllers/GIFReader.swift:120-139 | every normalised delay is at least 0.01 s, and it is either the 0.1 s default or the delay the metadata proposes |
| `GIFReading.FrameDelayCases` | ImageLoader/Controllers/GIFReader.swift:121-138 | no property or GIF dictionary gives 0.1 s. The unclamped delay wins when present, and the clamped one is used only without it. A chosen delay below 0.01 s becomes 0.1 s; otherwise it is kept unchanged |
| `GIFReading.AllFrameDelays` | ImageLoader/Controllers/GIFReader.swift:141-148 | the delay list has exactly one entry per frame, and entry `i` is frame `i`'s normalised delay |
| `GIFReading.LoopCount` | ImageLoader/Controllers/GIFReader.swift:105-110 | any result other than `Int.max` is the loop count held in the container's GIF dictionary |
| `GIFReading.LoopCountDefault` | ImageLoader/Controllers/GIFReader.swift:105-110 | a missing container dictionary, GIF dictionary or loop count gives `Int.max`; a present loop count, zero included, is returned unchanged |
| `GIFReading.ReportedSize` | ImageLoader/Controllers/GIFReader.swift:112-118 | a size is reported exactly when frame 0's properties have both pixel width and pixel height, and it is those two values |
| `GIFReading.Sum` | ImageLoader/Controllers/GIFReader.swift:69 | the left fold `reduce(0, +)` of the delays. What it guarantees is stated by `Average`, `AverageOfUniform`, `AverageAtLeast` and `KeyTimesOrdered` |
| `GIFReading.AllSame` | ImageLoader/Controllers/GIFReader.swift:68 | a list whose delay set has exactly one element is never empty |
| `GIFReading.AllSameIff` | ImageLoader/Controllers/GIFReader.swift:68 | the delay set has exactly one element iff the list is non-empty and all its entries are equal |
| `GIFReading.Average` | ImageLoader/Controllers/GIFReader.swift:69 | the average exists iff there is at least one delay, and the average times the count is the sum |
| `GIFReading.AverageOfUniform` | ImageLoader/Controllers/GIFReader.swift:69 | when every delay is `d`, the average is `d` |
| `GIFReading.AverageAtLeast` | ImageLoader/Controllers/GIFReader.swift:69 | an average of delays each at least `m` is at least `m` |
| `GIFReading.DelayListSummaries` | ImageLoader/Controllers/GIFReader.swift:66-69 | every listed delay and the average are at least 0.01 s. When no frame proposes a delay, every entry is 0.1 s, all delays are the same and the average is 0.1 s |
| `GIFReading.FetchFrame` | ImageLoader/Controllers/GIFReader.swift:73-88 | an index past the frame count gives nil, with no reopen and no decode. A reopen happens exactly when the container or frame status is not complete. A failed reopen keeps the old source. A decode happens exactly when both statuses of the source now held are complete. A result is only ever that decode |
| `GIFReading.FetchIdempotentWhenReady` | ImageLoader/Controllers/GIFReader.swift:76-80 | on a source that is ready at the index, a fetch does not reopen or change the source, and fetching again gives the same result |
| `GIFReading.FetchRecovers` | ImageLoader/Controllers/GIFReader.swift:76-95 | a degraded source whose reopen answers a ready source yields that source's frame and keeps the new source |
| `GIFReading.Present` | ImageLoader/Controllers/GIFReader.swift:38-42 | keeping only the present results never gives more values than results |
| `GIFReading.PresentMembers` | ImageLoader/Controllers/GIFReader.swift:38-42 | a value is among the kept values exactly when some result is that value present: every present frame is kept, and nothing else is |
| `GIFReading.PresentAll` | ImageLoader/Controllers/GIFReader.swift:38-42 | when every result is present, all of them are kept in order |
| `GIFReading.WalkFrames` | ImageLoader/Controllers/GIFReader.swift:36-44 | walking indices `0..<i` records exactly `i` per-index results and reopens at most once per index |
| `GIFReading.WalkResultsDecoded` | ImageLoader/Controllers/GIFReader.swift:38-41 | result `k` of the walk is exactly what `frame(at: k)` gives from the state the walk reached before index `k` |
| `GIFReading.WalkOnReadySource` | ImageLoader/Controllers/GIFReader.swift:36-44 | on a source ready at every index, the walk never reopens or changes the source, and result `k` is the source's frame `k` |
| `GIFReading.GIFReader.constructor` | ImageLoader/Controllers/GIFReader.swift:60-71 | the metadata is read once from the opened source: the loop count, the frame count, one delay per frame, the all-same flag, the average and the reported size. The lazy caches start empty |
| `GIFReading.GIFReader.Open` | ImageLoader/Controllers/GIFReader.swift:60-63 | there is no reader exactly when the URL cannot be opened; otherwise the reader is read from the opened source |
| `GIFReading.GIFReader.Frame` | ImageLoader/Controllers/GIFReader.swift:73-88 | the result and the new source are those of `FetchFrame`. The URL is opened again only when `FetchFrame` reopens, and then exactly once |
| `GIFReading.GIFReader.RecreateImageSource` | ImageLoader/Controllers/GIFReader.swift:91-95 | the source is replaced by the reopened one, or kept when reopening fails |
| `GIFReading.GIFReader.Frames` | ImageLoader/Controllers/GIFReader.swift:36-44 | the first access gives exactly the present results of `frame(at: i)` for `i` in `0..<numberOfFrames`, in order, and caches them. Later accesses return the cached list and change nothing |
| `GIFReading.GIFReader.ActualGIFSize` | ImageLoader/Controllers/GIFReader.swift:50-53 | the first access gives the size of decoded frame 0, or zero when it does not decode. It caches the size and leaves the source and the opener as `frame(at: 0)` does, so there is at most one reopen. Later accesses return the cached size and change nothing |
| `GIFPlayback.AnimationRepeat` | ImageLoader/GIFView.swift:116-121 | a repeat count of 0 repeats forever; any other count is kept |
| `GIFPlayback.LoadRepeatCount` | ImageLoader/GIFView.swift:65 | the repeat count asked for is 0 exactly when looping forever or the loop count is 0; without `loopForever` it is the loop count |
| `GIFPlayback.LoadRepeatsForever` | ImageLoader/GIFView.swift:65 | the animation repeats forever iff `loopForever` is set or the loop count is 0; otherwise it repeats the loop count |
| `GIFPlayback.KeyTimesUpTo` | ImageLoader/GIFView.swift:103-111 | after the loop has visited `k` indices there is one key time per index, at least one in all, and the first is exactly 0 |
| `GIFPlayback.KeyTimes` | ImageLoader/GIFView.swift:103-113 | one key time more than there are delays (two for no delays), the first exactly 0 and the last exactly 1 |
| `GIFPlayback.KeyTimesShape` | ImageLoader/GIFView.swift:103-113 | for n ≥ 1 delays there are n + 1 key times, the first exactly 0 and the last exactly 1. For `1 <= i < n`, key time `i` is key time `i - 1` plus `delays[i] / total` |
| `GIFPlayback.KeyTimesUpToClosedForm` | ImageLoader/GIFView.swift:104-110 | each computed key time `i` is the sum of `delays[1..i+1]` divided by the total |
| `GIFPlayback.LastComputedKeyTime` | ImageLoader/GIFView.swift:101-110 | the last computed key time is `(total - delays[0]) / total` |
| `GIFPlayback.KeyTimesOrdered` | ImageLoader/GIFView.swift:101-113 | with all delays positive, the total is positive and the key times are non-decreasing and lie in [0, 1] |
| `GIFPlayback.KeyTimesRotateDelays` | ImageLoader/GIFView.swift:105-113 | frame `i < n - 1` is shown for `delays[i + 1]`'s share of the total and the last frame for `delays[0]`'s share |
| `GIFPlayback.IntendedKeyTimes` | ImageLoader/GIFView.swift:103-113 | the timeline in which each frame shows for its own delay: key time `i` is the share of `delays[..i]`, with n + 1 entries |
| `GIFPlayback.IntendedKeyTimesShares` | ImageLoader/GIFView.swift:105-110 | in that timeline every frame is shown for exactly its own delay's share |
| `GIFPlayback.KeyTimesExample` | ImageLoader/GIFView.swift:101-113 | delays 0.1, 0.2, 0.1 give key times 0, 0.5, 0.75, 1 as written, against 0, 0.25, 0.75, 1 intended |
| `GIFPlayback.CreateAnimation` | ImageLoader/GIFView.swift:100-129 | the duration is the sum of the delays and the values are the given images. The repeat count is forever for 0 and otherwise kept. The key times are those of `KeyTimes`: one more than the delays, starting at exactly 0 and ending at exactly 1 |
| `GIFPlayback.ForceDecodeAll` | ImageLoader/GIFView.swift:63 | one force-decode result per frame, in order |
| `GIFPlayback.FirstFetch` | ImageLoader/GIFView.swift:48-49 | the fetch of frame 0 on the source the URL opened to. It holds a different source only after a reopen |
| `GIFPlayback.ScriptAfterFirst` | ImageLoader/GIFView.swift:48-49 | the opener's script after the open and frame 0's possible reopen: at least one and at most two answers consumed |
| `GIFPlayback.GIFView.constructor` | ImageLoader/GIFView.swift:26-32 | a new view holds no reader and no animation, runs nothing and shows nothing |
| `GIFPlayback.GIFView.IsAnimateableAndReadyToPlay` | ImageLoader/GIFView.swift:19 | true exactly when an animation is prepared, which is when `resumePlayback` has an effect |
| `GIFPlayback.GIFView.IsPlaying` | ImageLoader/GIFView.swift:22 | true exactly when the layer runs an animation under the GIF key |
| `GIFPlayback.GIFView.ResumePlayback` | ImageLoader/GIFView.swift:77-80 | when an animation is prepared the layer runs it; otherwise nothing changes |
| `GIFPlayback.GIFView.PausePlayback` | ImageLoader/GIFView.swift:82-86 | afterwards nothing runs, and when nothing was running nothing changes |
| `GIFPlayback.GIFView.ClearGIF` | ImageLoader/GIFView.swift:89-94 | afterwards there is no reader and no animation, nothing is shown, and the view is neither ready to play nor playing |
| `GIFPlayback.GIFView.PrepareAnimation` | ImageLoader/GIFView.swift:62-67 | the animation is built from the force-decoded frames and the reader's delays, and its total is positive. The repeat count is 0 when looping forever and the loop count otherwise. On an empty cache, the frames are the present results of the walk over every frame from the reader's current source and the opener's script. The new source, script and call count are those the walk ends with. On a filled cache, the cache, the source and the opener are unchanged |
| `GIFPlayback.GIFView.Load` | ImageLoader/GIFView.swift:45-75 | loading succeeds exactly when the URL opens and frame 0 decodes and force-decodes; frame 0 is then shown. On failure the reader, animation and shown image stay as they were. The opener has made the one open, plus frame 0's possible reopen when the open succeeded. On success a new reader is stored, read from the source the URL opened to. With one frame, the old animation is kept. The reader holds the source that fetching frame 0 left, and the opener has made one open plus that fetch's possible reopen. With more than one frame, the animation is built from that reader's delays and loop count. Its frames are the walk over every frame from the source and script that fetching frame 0 left. The reader holds the walk's final source, and the opener's script and call count add the walk's reopens. Nothing runs afterwards |
| `ImageLoading.RequestCachePolicyFor` | ImageLoader/Controllers/ImageLoader.swift:125-141 | offline always gives return-cache-data-else-load. Online, force-reload gives reload-revalidating-cache-data and use-cache-if-valid gives use-protocol-cache-policy. No other policy is ever chosen |
| `ImageLoading.LoadingTask.constructor` | ImageLoader/Controllers/ImageLoader.swift:45-48 | a new task keeps its URL and data task and is not cancelled |
| `ImageLoading.LoadingTask.Cancel` | ImageLoader/Controllers/ImageLoader.swift:39-43 | afterwards the task is cancelled. The data task is cancelled on the first call only; a second call changes nothing |
| `ImageLoading.IsCancellation` | ImageLoader/Controllers/ImageLoader.swift:95 | an error is a cancellation exactly when its domain is `NSURLErrorDomain` and its code is `NSURLErrorCancelled` (-999) |
| `ImageLoading.CompletionFor` | ImageLoader/Controllers/ImageLoader.swift:94-118 | a cancellation error means no callback, and missing data calls back with no image and not from cache. Otherwise it calls back with the image decoded from the data. `fromCache` holds exactly when a response was cached before the request and its data equals the data received |
| `ImageLoading.FirstLoadNotFromCache` | ImageLoader/Controllers/ImageLoader.swift:109-114 | with nothing cached beforehand, a callback is never marked as coming from the cache |

## Left out

- The image library calls are abstracted. `CGImageSourceCreateWithURL` is the
  scripted `Opener`. The status, property and decode calls read the source
  value. A decode therefore gives the same image from the same source every
  time, and the `kCGImageSourceShouldCache` option has no modelled effect.
- A source's container and frame statuses are fixed while the reader holds
  it. The image library can degrade a held source on its own, for example while
  the app is in the background (`GIFReader.swift:75`). The model captures this
  only as a source that was already degraded when it was opened or reopened.
  This includes a change between the checks at `GIFReader.swift:76` and `:80`.
  So in `FetchIdempotentWhenReady` and `WalkOnReadySource`, "ready" means "stays
  ready".
- A frame index past the end of a source reports a status that is not complete
  and has no properties or image. This is a modelling choice, since the library
  is not part of this model.
- GIFReading.GIFReader.Frame: indices are natural numbers. A negative index, which the
  Swift guard lets through to the image library, is not modelled.
- The unused private `allFrames` field of `GIFReader` is not modelled.
- Floating point is not modelled. Durations and sizes are exact reals. The NaN
  that averaging zero frames gives is `None`. `HUGE` is the `Forever` repeat
  count. `Float(repeatCount)` rounding is not modelled, and neither is rounding
  drift in the key times.
- Concurrency is not modelled. The background queue in `load` runs in line, and
  main-queue dispatches become plain updates. The `complete` callback of `load`
  is its result, and the data task's callback is the `Completion` value.
- UI is not modelled: the layer's setup in the view's initialiser,
  `intrinsicContentSize`, `invalidateIntrinsicContentSize` and the Core
  Animation objects beyond the fields kept here.
- The force-decode routine of `UIImage+Decoding.swift` is the `forceDecode`
  parameter. `UIImage(data:)` is the `decode` parameter.
- Networking is not modelled. This covers the URL session and cache set-up, the
  shared loader, and the request, cached-response lookup, data task creation and
  `resume` inside `image(from:cachePolicy:complete:)`. Reachability is the
  `isReachable` parameter.
- `GIFReader` and `LoadingTask` are Swift structs with `mutating` methods but
  are modelled as classes. In Swift each copy has its own source, lazy caches
  and `cancelled` flag, so two copies of one `LoadingTask` would each cancel the
  shared data task once. The model has a single shared object instead. No
  modelled caller copies either value: `load` drops its local reader once it is
  stored, and each loading task is held in one place.
- The UIKit extensions `UIImageView+Loading.swift` and
  `UIImageView+Animation.swift` are not part of this model. Neither are the
  protocol declarations or the test doubles.
