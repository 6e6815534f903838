/**
 * The GIF reader: normalisation of the metadata an image source reports
 * (loop count, per-frame delays, reported size) and guarded access to the
 * decoded frames, with one reopen of the source when its status has degraded.
 *
 * Delays are durations in seconds, modelled as exact reals.  The delays
 * come from the Graphic Control Extension of each frame (section 23 of the
 * GIF89a specification) and the loop count from the NETSCAPE2.0 application
 * extension, both as the image library reports them.
 */
module GIFReading {
  import opened Wrappers
  import opened ImageIO

  /** Delay used when a frame has none, or one too small to play (the browser convention). */
  const DefaultFrameDelay: real := 0.1
  /** Delays below this are not playable on a device. */
  const MinimumFrameDelay: real := 0.01
  /** `Int.max` on a 64-bit platform: the loop count when none can be read. */
  const IntMax: int := 0x7FFF_FFFF_FFFF_FFFF

  // ---------------------------------------------------------------------
  // Metadata normalisation
  // ---------------------------------------------------------------------

  /**
   * The delay the metadata of a frame proposes: the unclamped delay when
   * present, otherwise the clamped delay; none when the frame has no
   * property dictionary or no GIF dictionary.
   */
  function ProposedDelay(properties: Option<FrameProperties>): (proposed: Option<real>)
    ensures proposed.Some? ==>
      && properties.Some? && properties.value.gif.Some?
      && var g := properties.value.gif.value;
         proposed == if g.unclampedDelay.Some? then g.unclampedDelay else g.delay
    ensures properties.Some? && properties.value.gif.Some? ==>
      (proposed.None? <==> properties.value.gif.value.unclampedDelay.None? && properties.value.gif.value.delay.None?)
  {
    match properties
    case None => None
    case Some(p) =>
      match p.gif
      case None => None
      case Some(g) => if g.unclampedDelay.Some? then g.unclampedDelay else g.delay
  }

  /** The normalised delay of frame `index`. */
  function FrameDelay(source: Source, index: nat): (delay: real)
    ensures delay >= MinimumFrameDelay
    ensures delay == DefaultFrameDelay || Some(delay) == ProposedDelay(source.PropertiesAt(index))
  {
    match ProposedDelay(source.PropertiesAt(index))
    case None => DefaultFrameDelay
    case Some(d) => if d < MinimumFrameDelay then DefaultFrameDelay else d
  }

  /** Which value the delay of a frame takes, by the shape of its metadata. */
  lemma FrameDelayCases(source: Source, index: nat)
    ensures source.PropertiesAt(index).None? ==> FrameDelay(source, index) == DefaultFrameDelay
    ensures source.PropertiesAt(index).Some? && source.PropertiesAt(index).value.gif.None?
      ==> FrameDelay(source, index) == DefaultFrameDelay
    ensures source.PropertiesAt(index).Some? && source.PropertiesAt(index).value.gif.Some? ==>
      var g := source.PropertiesAt(index).value.gif.value;
      && (g.unclampedDelay.Some? ==>
            FrameDelay(source, index) == if g.unclampedDelay.value < MinimumFrameDelay then DefaultFrameDelay else g.unclampedDelay.value)
      && (g.unclampedDelay.None? && g.delay.Some? ==>
            FrameDelay(source, index) == if g.delay.value < MinimumFrameDelay then DefaultFrameDelay else g.delay.value)
      && (g.unclampedDelay.None? && g.delay.None? ==> FrameDelay(source, index) == DefaultFrameDelay)
  {
  }

  /** The delay list: one normalised delay per frame, in index order. */
  method AllFrameDelays(source: Source) returns (delays: seq<real>)
    ensures |delays| == source.Count()
    ensures forall i :: 0 <= i < |delays| ==> delays[i] == FrameDelay(source, i)
  {
    delays := [];
    for index := 0 to source.Count()
      invariant |delays| == index
      invariant forall i :: 0 <= i < index ==> delays[i] == FrameDelay(source, i)
    {
      delays := delays + [FrameDelay(source, index)];
    }
  }

  /** The loop count of the container; `IntMax` when it cannot be read. */
  function LoopCount(source: Source): (count: int)
    ensures count != IntMax ==>
      source.properties.Some? && source.properties.value.gif.Some?
      && source.properties.value.gif.value.loopCount == Some(count)
  {
    match source.properties
    case None => IntMax
    case Some(p) =>
      match p.gif
      case None => IntMax
      case Some(g) => g.loopCount.GetOr(IntMax)
  }

  /** A missing or unreadable loop count reads as `IntMax`; a present one, zero included, is kept. */
  lemma LoopCountDefault(source: Source)
    ensures source.properties.None? ==> LoopCount(source) == IntMax
    ensures source.properties.Some? && source.properties.value.gif.None? ==> LoopCount(source) == IntMax
    ensures source.properties.Some? && source.properties.value.gif.Some? ==>
      var count := source.properties.value.gif.value.loopCount;
      LoopCount(source) == if count.Some? then count.value else IntMax
  {
  }

  /** The size frame 0's metadata reports, present only when both dimensions are. */
  function ReportedSize(source: Source): (size: Option<Size>)
    ensures size.Some? <==>
      source.PropertiesAt(0).Some? && source.PropertiesAt(0).value.pixelWidth.Some?
      && source.PropertiesAt(0).value.pixelHeight.Some?
    ensures size.Some? ==>
      size.value.width == source.PropertiesAt(0).value.pixelWidth.value
      && size.value.height == source.PropertiesAt(0).value.pixelHeight.value
  {
    match source.PropertiesAt(0)
    case None => None
    case Some(p) =>
      if p.pixelWidth.Some? && p.pixelHeight.Some? then Some(Size(p.pixelWidth.value, p.pixelHeight.value))
      else None
  }

  // ---------------------------------------------------------------------
  // Summaries of the delay list
  // ---------------------------------------------------------------------

  /** The sum of a list of durations, folded from the left from zero. */
  function Sum(values: seq<real>): (total: real) {
    if values == [] then 0.0 else Sum(values[..|values| - 1]) + values[|values| - 1]
  }

  /** True when the list has exactly one distinct value. */
  predicate AllSame(delays: seq<real>)
    ensures AllSame(delays) ==> |delays| >= 1
  {
    |set d | d in delays| == 1
  }

  /** The mean delay; `None` stands for the NaN that dividing by a count of zero gives. */
  function Average(delays: seq<real>): (average: Option<real>)
    ensures average.Some? <==> |delays| > 0
    ensures average.Some? ==> average.value * (|delays| as real) == Sum(delays)
  {
    if |delays| == 0 then None else Some(Sum(delays) / (|delays| as real))
  }

  /** One distinct value exactly when the list is non-empty and all its entries are equal. */
  lemma AllSameIff(delays: seq<real>)
    ensures AllSame(delays) <==>
      |delays| > 0 && forall i, j :: 0 <= i < |delays| && 0 <= j < |delays| ==> delays[i] == delays[j]
  {
    var distinct := set d | d in delays;
    if |delays| > 0 && forall i, j :: 0 <= i < |delays| && 0 <= j < |delays| ==> delays[i] == delays[j] {
      assert distinct == {delays[0]} by {
        forall d | d in distinct ensures d == delays[0] {
          var k :| 0 <= k < |delays| && delays[k] == d;
        }
      }
    }
    if AllSame(delays) {
      var e := delays[0];
      assert e in distinct;
      assert distinct - {e} == {} by {
        assert |distinct - {e}| == |distinct| - 1;
      }
      forall i | 0 <= i < |delays| ensures delays[i] == e {
        assert delays[i] in distinct;
      }
    }
  }

  /** The sum of `n` copies of `d` is `n * d`. */
  lemma {:induction false} SumUniform(values: seq<real>, d: real)
    requires forall i :: 0 <= i < |values| ==> values[i] == d
    ensures Sum(values) == (|values| as real) * d
  {
    if values != [] {
      SumUniform(values[..|values| - 1], d);
    }
  }

  /** A sum of values each at least `m` is at least `|values| * m`. */
  lemma {:induction false} SumAtLeast(values: seq<real>, m: real)
    requires forall i :: 0 <= i < |values| ==> values[i] >= m
    ensures Sum(values) >= (|values| as real) * m
  {
    if values != [] {
      SumAtLeast(values[..|values| - 1], m);
    }
  }

  /** When every delay is `d`, the average is `d`. */
  lemma AverageOfUniform(delays: seq<real>, d: real)
    requires |delays| > 0
    requires forall i :: 0 <= i < |delays| ==> delays[i] == d
    ensures Average(delays) == Some(d)
  {
    SumUniform(delays, d);
    var n := |delays| as real;
    assert Sum(delays) / n == (n * d) / n == d;
  }

  /** The average of delays each at least `m` is at least `m`. */
  lemma AverageAtLeast(delays: seq<real>, m: real)
    requires |delays| > 0
    requires forall i :: 0 <= i < |delays| ==> delays[i] >= m
    ensures Average(delays).value >= m
  {
    SumAtLeast(delays, m);
    var n := |delays| as real;
    assert Average(delays).value * n == Sum(delays) >= n * m;
  }

  /**
   * Facts about the delay list of a source: every delay is playable and so
   * is their average; when no frame proposes a delay, every delay is the
   * default, all delays are the same and the average is the default.
   */
  lemma DelayListSummaries(source: Source, delays: seq<real>)
    requires |delays| == source.Count()
    requires forall i :: 0 <= i < |delays| ==> delays[i] == FrameDelay(source, i)
    ensures forall i :: 0 <= i < |delays| ==> delays[i] >= MinimumFrameDelay
    ensures |delays| > 0 ==> Average(delays).value >= MinimumFrameDelay
    ensures (forall i :: 0 <= i < |delays| ==> ProposedDelay(source.PropertiesAt(i)).None?) ==>
      && (forall i :: 0 <= i < |delays| ==> delays[i] == DefaultFrameDelay)
      && (|delays| > 0 ==> AllSame(delays) && Average(delays) == Some(DefaultFrameDelay))
  {
    if |delays| > 0 {
      AverageAtLeast(delays, MinimumFrameDelay);
    }
    if |delays| > 0 && forall i :: 0 <= i < |delays| ==> ProposedDelay(source.PropertiesAt(i)).None? {
      AllSameIff(delays);
      AverageOfUniform(delays, DefaultFrameDelay);
    }
  }

  // ---------------------------------------------------------------------
  // Frame access
  // ---------------------------------------------------------------------

  /** Both the container and frame `index` report a complete status. */
  predicate Ready(source: Source, index: nat) {
    source.status == Complete && source.StatusAt(index) == Complete
  }

  /** What one call of `frame(at:)` does: its result, the source it leaves, whether it reopened and whether it decoded. */
  datatype Fetch = Fetch(image: Option<Image>, source: Source, reopened: bool, decoded: bool)

  /**
   * One call of `frame(at:)` on a reader with `count` frames holding
   * `source`; `reopen` is what opening the URL again would answer.
   */
  function FetchFrame(source: Source, count: nat, index: nat, reopen: Option<Source>): (f: Fetch)
    ensures index >= count ==> f == Fetch(None, source, false, false)
    ensures f.reopened <==> index < count && !Ready(source, index)
    ensures f.source == if f.reopened && reopen.Some? then reopen.value else source
    ensures f.decoded <==> index < count && Ready(f.source, index)
    ensures f.image.Some? ==> f.decoded && f.image == f.source.ImageAt(index)
    ensures f.decoded ==> f.image == f.source.ImageAt(index)
  {
    if index >= count then Fetch(None, source, false, false)
    else
      var reopened := !Ready(source, index);
      var current := if reopened then reopen.GetOr(source) else source;
      if Ready(current, index) then Fetch(current.ImageAt(index), current, reopened, true)
      else Fetch(None, current, reopened, false)
  }

  /** On a source that is ready at `index`, fetching again neither reopens nor changes the answer. */
  lemma FetchIdempotentWhenReady(source: Source, count: nat, index: nat, reopen: Option<Source>, reopen': Option<Source>)
    requires index < count && Ready(source, index)
    ensures var f := FetchFrame(source, count, index, reopen);
      !f.reopened && f.source == source && FetchFrame(f.source, count, index, reopen') == f
  {
  }

  /** A degraded source that reopens into a ready one yields the reopened source's frame. */
  lemma FetchRecovers(source: Source, count: nat, index: nat, reopened: Source)
    requires index < count && !Ready(source, index) && Ready(reopened, index)
    ensures FetchFrame(source, count, index, Some(reopened)) == Fetch(reopened.ImageAt(index), reopened, true, true)
  {
  }

  /** The values of the present entries, in order (Swift's `compactMap`). */
  function Present<T>(options: seq<Option<T>>): (values: seq<T>)
    ensures |values| <= |options|
  {
    if options == [] then []
    else
      var last := options[|options| - 1];
      Present(options[..|options| - 1]) + if last.Some? then [last.value] else []
  }

  /** When every entry is present, `Present` keeps all of them in order. */
  lemma {:induction false} PresentAll<T>(options: seq<Option<T>>)
    requires forall i :: 0 <= i < |options| ==> options[i].Some?
    ensures |Present(options)| == |options|
    ensures forall i :: 0 <= i < |options| ==> Present(options)[i] == options[i].value
  {
    if options != [] {
      PresentAll(options[..|options| - 1]);
    }
  }

  /** `Present` of a list extended by one entry. */
  lemma PresentSnoc<T>(options: seq<Option<T>>, x: Option<T>)
    ensures Present(options + [x]) == Present(options) + if x.Some? then [x.value] else []
  {
    assert (options + [x])[..|options|] == options;
  }

  /** `Present` keeps exactly the values of the present entries: nothing is lost and nothing is added. */
  lemma {:induction false} PresentMembers<T>(options: seq<Option<T>>)
    ensures forall v :: v in Present(options) <==> Some(v) in options
  {
    if options != [] {
      var init, last := options[..|options| - 1], options[|options| - 1];
      PresentMembers(init);
      assert options == init + [last];
    }
  }

  /** The state the lazy `frames` walk has reached once it fetched indices `0..<i`. */
  datatype Walk = Walk(results: seq<Option<Image>>, source: Source, script: seq<Option<Source>>, reopens: nat)

  /**
   * Fetching frames `0..<i` in order on a reader with `count` frames that
   * starts with `source`, the environment answering opens from `script`.
   */
  function WalkFrames(source: Source, script: seq<Option<Source>>, count: nat, i: nat): (w: Walk)
    requires i <= count
    ensures |w.results| == i
    ensures w.reopens <= i
    ensures |w.script| >= |script| - w.reopens
  {
    if i == 0 then Walk([], source, script, 0)
    else
      var w := WalkFrames(source, script, count, i - 1);
      var f := FetchFrame(w.source, count, i - 1, NextOpen(w.script));
      Walk(w.results + [f.image], f.source,
           if f.reopened then RestOfScript(w.script) else w.script,
           w.reopens + if f.reopened then 1 else 0)
  }

  /** Each result of the walk is what `frame(at:)` gave for that index: present only if decoded from a ready source. */
  lemma {:induction false} WalkResultsDecoded(source: Source, script: seq<Option<Source>>, count: nat, i: nat, k: nat)
    requires i <= count && k < i
    ensures var r := WalkFrames(source, script, count, i).results[k];
      var w := WalkFrames(source, script, count, k);
      r == FetchFrame(w.source, count, k, NextOpen(w.script)).image
  {
    if k < i - 1 {
      WalkResultsDecoded(source, script, count, i - 1, k);
    }
  }

  /** On a source ready at every index, the walk never reopens and decodes every frame from that source. */
  lemma {:induction false} WalkOnReadySource(source: Source, script: seq<Option<Source>>, count: nat, i: nat)
    requires i <= count
    requires forall k :: 0 <= k < count ==> Ready(source, k)
    ensures var w := WalkFrames(source, script, count, i);
      w.source == source && w.script == script && w.reopens == 0
      && forall k :: 0 <= k < i ==> w.results[k] == source.ImageAt(k)
  {
    if i > 0 {
      WalkOnReadySource(source, script, count, i - 1);
    }
  }

  // ---------------------------------------------------------------------
  // The reader
  // ---------------------------------------------------------------------

  /** A reader over one GIF: metadata read once when opened, frames decoded on demand. */
  class GIFReader {
    const url: Url
    /** `IntMax` when the loop count cannot be determined. */
    const loopCount: int
    const numberOfFrames: nat
    const frameDelays: seq<real>
    const areAllFrameDelaysTheSame: bool
    const averageFrameDelay: Option<real>
    const reportedGIFSize: Option<Size>
    /** The source the metadata was read from. */
    ghost const openedSource: Source

    /** The current source; reopening replaces it. */
    var imageSource: Source
    /** The lazy `frames`, once computed. */
    var framesCache: Option<seq<Image>>
    /** The lazy `actualGIFSize`, once computed. */
    var actualSizeCache: Option<Size>

    /** The metadata fields agree with the source they were read from. */
    ghost predicate Valid() {
      && numberOfFrames == openedSource.Count()
      && loopCount == LoopCount(openedSource)
      && |frameDelays| == numberOfFrames
      && (forall i :: 0 <= i < numberOfFrames ==> frameDelays[i] == FrameDelay(openedSource, i))
      && areAllFrameDelaysTheSame == AllSame(frameDelays)
      && averageFrameDelay == Average(frameDelays)
      && reportedGIFSize == ReportedSize(openedSource)
    }

    /** Reads the metadata of a freshly opened source. */
    constructor (url: Url, source: Source)
      ensures Valid()
      ensures this.url == url && openedSource == source && imageSource == source
      ensures framesCache.None? && actualSizeCache.None?
    {
      var delays := AllFrameDelays(source);
      this.url := url;
      openedSource := source;
      imageSource := source;
      loopCount := LoopCount(source);
      numberOfFrames := source.Count();
      frameDelays := delays;
      areAllFrameDelaysTheSame := AllSame(delays);
      averageFrameDelay := Average(delays);
      reportedGIFSize := ReportedSize(source);
      framesCache := None;
      actualSizeCache := None;
    }

    /** `init?(with:)`: no reader when the URL cannot be opened as an image source. */
    static method Open(url: Url, io: Opener) returns (reader: GIFReader?)
      modifies io
      ensures io.script == RestOfScript(old(io.script)) && io.calls == old(io.calls) + 1
      ensures reader == null <==> NextOpen(old(io.script)).None?
      ensures reader != null ==>
        && fresh(reader) && reader.Valid()
        && reader.url == url && reader.openedSource == NextOpen(old(io.script)).value
        && reader.imageSource == reader.openedSource
        && reader.framesCache.None? && reader.actualSizeCache.None?
    {
      var source := io.CreateWithURL(url);
      if source.None? {
        return null;
      }
      reader := new GIFReader(url, source.value);
    }

    /** `frame(at:)`: the decoded frame at `index`, reopening the source once if it is not ready. */
    method Frame(index: nat, io: Opener) returns (image: Option<Image>)
      modifies this`imageSource, io
      ensures var f := FetchFrame(old(imageSource), numberOfFrames, index, NextOpen(old(io.script)));
        && image == f.image && imageSource == f.source
        && io.script == (if f.reopened then RestOfScript(old(io.script)) else old(io.script))
        && io.calls == old(io.calls) + (if f.reopened then 1 else 0)
    {
      if index >= numberOfFrames {
        return None;
      }
      if imageSource.status != Complete || imageSource.StatusAt(index) != Complete {
        RecreateImageSource(io);
      }
      if !(imageSource.status == Complete && imageSource.StatusAt(index) == Complete) {
        return None;
      }
      image := imageSource.ImageAt(index);
    }

    /** Opens the URL again; keeps the current source when that fails. */
    method RecreateImageSource(io: Opener)
      modifies this`imageSource, io
      ensures imageSource == NextOpen(old(io.script)).GetOr(old(imageSource))
      ensures io.script == RestOfScript(old(io.script)) && io.calls == old(io.calls) + 1
    {
      var source := io.CreateWithURL(url);
      if source.Some? {
        imageSource := source.value;
      }
    }

    /** The lazy `frames`: every frame that decodes, in index order, computed on first access. */
    method Frames(io: Opener) returns (frames: seq<Image>)
      modifies this`imageSource, this`framesCache, io
      ensures old(framesCache).Some? ==>
        frames == old(framesCache).value && imageSource == old(imageSource)
        && io.script == old(io.script) && io.calls == old(io.calls)
      ensures old(framesCache).None? ==>
        var w := WalkFrames(old(imageSource), old(io.script), numberOfFrames, numberOfFrames);
        && frames == Present(w.results) && imageSource == w.source
        && io.script == w.script && io.calls == old(io.calls) + w.reopens
      ensures framesCache == Some(frames)
    {
      if framesCache.Some? {
        return framesCache.value;
      }
      var allFrames: seq<Image> := [];
      ghost var results: seq<Option<Image>> := [];
      for index := 0 to numberOfFrames
        invariant var w := WalkFrames(old(imageSource), old(io.script), numberOfFrames, index);
          && results == w.results && allFrames == Present(results) && imageSource == w.source
          && io.script == w.script && io.calls == old(io.calls) + w.reopens
      {
        var frame := Frame(index, io);
        ghost var next := WalkFrames(old(imageSource), old(io.script), numberOfFrames, index + 1);
        assert next.results == results + [frame] && imageSource == next.source;
        PresentSnoc(results, frame);
        results := results + [frame];
        if frame.Some? {
          allFrames := allFrames + [frame.value];
        }
      }
      framesCache := Some(allFrames);
      frames := allFrames;
    }

    /** The lazy `actualGIFSize`: the size of decoded frame 0, or zero when it does not decode. */
    method ActualGIFSize(io: Opener) returns (size: Size)
      modifies this`imageSource, this`actualSizeCache, io
      ensures old(actualSizeCache).Some? ==>
        size == old(actualSizeCache).value && imageSource == old(imageSource)
        && io.script == old(io.script) && io.calls == old(io.calls)
      ensures old(actualSizeCache).None? ==>
        var f := FetchFrame(old(imageSource), numberOfFrames, 0, NextOpen(old(io.script)));
        && size == (if f.image.Some? then f.image.value.size else ZeroSize)
        && imageSource == f.source
        && io.script == (if f.reopened then RestOfScript(old(io.script)) else old(io.script))
        && io.calls == old(io.calls) + (if f.reopened then 1 else 0)
      ensures actualSizeCache == Some(size)
    {
      if actualSizeCache.Some? {
        return actualSizeCache.value;
      }
      var firstFrame := Frame(0, io);
      size := if firstFrame.Some? then firstFrame.value.size else ZeroSize;
      actualSizeCache := Some(size);
    }
  }
}
