/**
 * The foreign image-decoding library (ImageIO) as seen by the GIF reader.
 *
 * An opened image source is an abstract value: a container status, an
 * optional container property dictionary, and per frame a status, an
 * optional property dictionary and the image a decode at that index yields.
 * Only the keys the reader looks at are modelled.  Opening a source from a
 * URL is an effect of the environment: the `Opener` class answers with a
 * script of outcomes, one per call.
 */
module ImageIO {
  import opened Wrappers

  type Url = string

  /** The status values a source and each of its frames may report. */
  datatype Status = UnexpectedEOF | InvalidData | UnknownType | ReadingHeader | Incomplete | Complete

  /** A width and height in pixels (a `CGSize`). */
  datatype Size = Size(width: real, height: real)

  /** The zero size, `CGSize.zero`. */
  const ZeroSize: Size := Size(0.0, 0.0)

  /** A decoded bitmap: only its identity and its size matter to the reader. */
  datatype Image = Image(id: nat, size: Size)

  /** The GIF dictionary of one frame: unclamped and clamped delay, in seconds, when readable as numbers. */
  datatype GIFFrameProperties = GIFFrameProperties(unclampedDelay: Option<real>, delay: Option<real>)

  /** The property dictionary of one frame. */
  datatype FrameProperties = FrameProperties(
    pixelWidth: Option<real>,
    pixelHeight: Option<real>,
    gif: Option<GIFFrameProperties>)

  /** The GIF dictionary of the container: the NETSCAPE2.0 loop count, when readable as an integer. */
  datatype GIFContainerProperties = GIFContainerProperties(loopCount: Option<int>)

  /** The property dictionary of the container. */
  datatype ContainerProperties = ContainerProperties(gif: Option<GIFContainerProperties>)

  /** What the source reports about one frame index. */
  datatype FrameEntry = FrameEntry(status: Status, properties: Option<FrameProperties>, image: Option<Image>)

  /** An opened image source (a `CGImageSource`). */
  datatype Source = Source(status: Status, properties: Option<ContainerProperties>, frames: seq<FrameEntry>) {

    /** The number of frames (`CGImageSourceGetCount`). */
    function Count(): (count: nat) {
      |frames|
    }

    /** The status at an index (`CGImageSourceGetStatusAtIndex`); an index past the end is never complete. */
    function StatusAt(index: nat): (status: Status) {
      if index < |frames| then frames[index].status else InvalidData
    }

    /** The property dictionary at an index (`CGImageSourceCopyPropertiesAtIndex`). */
    function PropertiesAt(index: nat): (properties: Option<FrameProperties>) {
      if index < |frames| then frames[index].properties else None
    }

    /** The image a decode at an index yields (`CGImageSourceCreateImageAtIndex`). */
    function ImageAt(index: nat): (image: Option<Image>) {
      if index < |frames| then frames[index].image else None
    }
  }

  /** The next answer of a script of open outcomes; an exhausted script fails to open. */
  function NextOpen(script: seq<Option<Source>>): (answer: Option<Source>) {
    if script == [] then None else script[0]
  }

  /** The script once its next answer has been consumed. */
  function RestOfScript(script: seq<Option<Source>>): (rest: seq<Option<Source>>) {
    if script == [] then [] else script[1..]
  }

  /**
   * `CGImageSourceCreateWithURL` as an effect of the environment: each call
   * consumes the next scripted outcome, and `calls` counts the calls made.
   */
  class Opener {
    var script: seq<Option<Source>>
    var calls: nat

    constructor (script: seq<Option<Source>>)
      ensures this.script == script && calls == 0
    {
      this.script := script;
      calls := 0;
    }

    method CreateWithURL(url: Url) returns (source: Option<Source>)
      modifies this
      ensures source == NextOpen(old(script))
      ensures script == RestOfScript(old(script))
      ensures calls == old(calls) + 1
    {
      source := NextOpen(script);
      script := RestOfScript(script);
      calls := calls + 1;
    }
  }
}
