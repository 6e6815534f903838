/**
 * The network image loader: the choice of request cache policy, the
 * cancellable loading task, and the decision the data task's completion
 * handler makes once the transfer ends.  The transfer itself, the URL
 * cache and the dispatch to the main queue are outside the model.
 */
module ImageLoading {
  import opened Wrappers
  import opened ImageIO

  /** The cache policy a caller asks for. */
  datatype CachePolicy = UseCacheIfValid | ForceReload

  /** The cache policies a URL request can carry. */
  datatype RequestCachePolicy =
    | UseProtocolCachePolicy
    | ReloadIgnoringLocalCacheData
    | ReloadIgnoringLocalAndRemoteCacheData
    | ReturnCacheDataElseLoad
    | ReturnCacheDataDontLoad
    | ReloadRevalidatingCacheData

  /**
   * The request cache policy for a requested policy: offline, stale cached
   * data is preferred to nothing whatever was asked; online, a forced
   * reload revalidates and otherwise the protocol's rules apply.
   */
  function RequestCachePolicyFor(isReachable: bool, policy: CachePolicy): (r: RequestCachePolicy)
    ensures r == UseProtocolCachePolicy || r == ReloadRevalidatingCacheData || r == ReturnCacheDataElseLoad
    ensures r == ReturnCacheDataElseLoad <==> !isReachable
    ensures r == ReloadRevalidatingCacheData <==> isReachable && policy == ForceReload
    ensures r == UseProtocolCachePolicy <==> isReachable && policy == UseCacheIfValid
  {
    if isReachable then
      match policy
      case ForceReload => ReloadRevalidatingCacheData
      case UseCacheIfValid => UseProtocolCachePolicy
    else
      ReturnCacheDataElseLoad
  }

  /** The URL session data task behind a loading task; only how often it is cancelled is observed. */
  class DataTask {
    var cancelCalls: nat

    constructor ()
      ensures cancelCalls == 0
    {
      cancelCalls := 0;
    }

    method Cancel()
      modifies this
      ensures cancelCalls == old(cancelCalls) + 1
    {
      cancelCalls := cancelCalls + 1;
    }
  }

  /** A handle that lets the caller cancel an image load. */
  class LoadingTask {
    const url: Url
    const task: DataTask
    var cancelled: bool

    constructor (url: Url, task: DataTask)
      ensures this.url == url && this.task == task && !cancelled
    {
      this.url := url;
      this.task := task;
      cancelled := false;
    }

    /** Cancels the load; the data task is cancelled the first time only. */
    method Cancel()
      modifies this`cancelled, task
      ensures cancelled
      ensures task.cancelCalls == old(task.cancelCalls) + if old(cancelled) then 0 else 1
    {
      if cancelled {
        return;
      }
      task.Cancel();
      cancelled := true;
    }
  }

  type Data = seq<bv8>

  /** An error as the completion handler sees it, by domain and code. */
  datatype NSError = NSError(domain: string, code: int)

  const NSURLErrorDomain: string := "NSURLErrorDomain"
  const NSURLErrorCancelled: int := -999

  /** The error a cancelled data task ends with. */
  predicate IsCancellation(error: Option<NSError>) {
    error.Some? && error.value.domain == NSURLErrorDomain && error.value.code == NSURLErrorCancelled
  }

  /** What the completion handler does: nothing, or call `complete(image, fromCache)`. */
  datatype Completion = NoCallback | Callback(image: Option<Image>, fromCache: bool)

  /**
   * The completion decision once a data task ends with `data` and `error`;
   * `cachedData` is the data of the response the cache held before the
   * request was sent, and `decode` stands for building an image from data.
   */
  function CompletionFor(data: Option<Data>, error: Option<NSError>, cachedData: Option<Data>,
                         decode: Data -> Option<Image>): (c: Completion)
    ensures c.NoCallback? <==> IsCancellation(error)
    ensures !IsCancellation(error) && data.None? ==> c == Callback(None, false)
    ensures !IsCancellation(error) && data.Some? ==> c.image == decode(data.value)
    ensures c.Callback? ==> (c.fromCache <==> data.Some? && cachedData == data)
  {
    if IsCancellation(error) then NoCallback
    else
      match data
      case None => Callback(None, false)
      case Some(received) =>
        var fromCache := match cachedData
          case Some(cached) => cached == received
          case None => false;
        Callback(decode(received), fromCache)
  }

  /** A first load, with nothing cached beforehand, is never reported as coming from the cache. */
  lemma FirstLoadNotFromCache(data: Option<Data>, error: Option<NSError>, decode: Data -> Option<Image>)
    ensures var c := CompletionFor(data, error, None, decode);
      c.Callback? ==> !c.fromCache
  {
  }
}
