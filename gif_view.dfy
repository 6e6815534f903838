/**
 * The GIF view: building a discrete keyframe timeline from a reader's
 * frames and delays, and the small playback state the view keeps (the
 * reader, the prepared animation, the animation the layer is running and
 * the image it displays).
 */
module GIFPlayback {
  import opened Wrappers
  import opened ImageIO
  import opened GIFReading

  /** How often the animation repeats: `HUGE` (forever) or a given count. */
  datatype RepeatCount = Forever | Times(count: int)

  /** A discrete keyframe animation over the layer's contents. */
  datatype Animation = Animation(values: seq<Image>, keyTimes: seq<real>, duration: real, repeatCount: RepeatCount)

  /** The repeat count an animation is given: zero means forever, any other value is kept. */
  function AnimationRepeat(repeatCount: int): (r: RepeatCount)
    ensures r.Forever? <==> repeatCount == 0
    ensures r.Times? ==> r.count == repeatCount
  {
    if repeatCount == 0 then Forever else Times(repeatCount)
  }

  /** The repeat count `load` asks for: zero when told to loop forever, else the reader's loop count. */
  function LoadRepeatCount(loopForever: bool, loopCount: int): (repeatCount: int)
    ensures repeatCount == 0 <==> loopForever || loopCount == 0
    ensures !loopForever ==> repeatCount == loopCount
  {
    if loopForever then 0 else loopCount
  }

  /** Looping forever always repeats forever; otherwise only a loop count of zero does. */
  lemma LoadRepeatsForever(loopForever: bool, loopCount: int)
    ensures AnimationRepeat(LoadRepeatCount(loopForever, loopCount)).Forever? <==> loopForever || loopCount == 0
    ensures !loopForever && loopCount != 0 ==> AnimationRepeat(LoadRepeatCount(loopForever, loopCount)) == Times(loopCount)
  {
  }

  // ---------------------------------------------------------------------
  // Key times
  // ---------------------------------------------------------------------

  /**
   * The key times after the loop of `createAnimation` has visited indices
   * `0..<k`: a leading zero, then for each index `i >= 1` the previous key
   * time plus `delays[i] / total`.
   */
  function KeyTimesUpTo(delays: seq<real>, total: real, k: nat): (times: seq<real>)
    requires k <= |delays|
    requires k <= 1 || total != 0.0
    ensures |times| == if k == 0 then 1 else k
    ensures times[0] == 0.0
  {
    if k <= 1 then [0.0]
    else
      var prev := KeyTimesUpTo(delays, total, k - 1);
      prev + [prev[|prev| - 1] + delays[k - 1] / total]
  }

  /** The key times of the animation built for `delays`; a final one is forced to exactly 1. */
  function KeyTimes(delays: seq<real>): (times: seq<real>)
    requires |delays| <= 1 || Sum(delays) != 0.0
    ensures |times| == |delays| + 1 || (delays == [] && |times| == 2)
    ensures times[0] == 0.0 && times[|times| - 1] == 1.0
  {
    KeyTimesUpTo(delays, Sum(delays), |delays|) + [1.0]
  }

  /** Earlier stages of the key-time loop are prefixes of later ones. */
  lemma {:induction false} KeyTimesUpToPrefix(delays: seq<real>, total: real, j: nat, k: nat)
    requires j <= k <= |delays|
    requires k <= 1 || total != 0.0
    ensures KeyTimesUpTo(delays, total, j) <= KeyTimesUpTo(delays, total, k)
  {
    if j < k {
      KeyTimesUpToPrefix(delays, total, j, k - 1);
    }
  }

  /**
   * For n delays (n >= 1) there are n + 1 key times, the first exactly 0 and
   * the last exactly 1, and each key time `i` in `1..<n` adds `delays[i]`
   * (not `delays[i - 1]`) as a share of the total to key time `i - 1`.
   */
  lemma KeyTimesShape(delays: seq<real>)
    requires |delays| >= 1
    requires |delays| == 1 || Sum(delays) != 0.0
    ensures var times := KeyTimes(delays);
      && |times| == |delays| + 1 && times[0] == 0.0 && times[|delays|] == 1.0
      && forall i :: 1 <= i < |delays| ==> times[i] == times[i - 1] + delays[i] / Sum(delays)
  {
    var n, total := |delays|, Sum(delays);
    forall i | 1 <= i < n
      ensures KeyTimes(delays)[i] == KeyTimes(delays)[i - 1] + delays[i] / total
    {
      KeyTimesUpToPrefix(delays, total, i + 1, n);
    }
  }

  /** Splitting the first value off a left fold. */
  lemma {:induction false} SumFront(values: seq<real>)
    requires |values| > 0
    ensures Sum(values) == values[0] + Sum(values[1..])
  {
    if |values| > 1 {
      var init := values[..|values| - 1];
      SumFront(init);
      assert init[1..] == values[1..][..|values[1..]| - 1];
    }
  }

  /** Sums over longer prefixes of non-negative values are no smaller. */
  lemma {:induction false} SumPrefixMonotone(values: seq<real>, i: nat, j: nat)
    requires i <= j <= |values|
    requires forall k :: 0 <= k < |values| ==> values[k] >= 0.0
    ensures 0.0 <= Sum(values[..i]) <= Sum(values[..j])
  {
    if i < j {
      SumPrefixMonotone(values, i, j - 1);
      assert values[..j][..j - 1] == values[..j - 1];
    } else if i > 0 {
      SumPrefixMonotone(values, i - 1, i);
    }
  }

  /** Key time `i` is the sum of `delays[1..i+1]` as a share of the total. */
  lemma {:induction false} KeyTimesUpToClosedForm(delays: seq<real>, total: real, k: nat, i: nat)
    requires 1 <= k <= |delays| && total != 0.0
    requires i < k
    ensures KeyTimesUpTo(delays, total, k)[i] == Sum(delays[1..i + 1]) / total
  {
    if i == 0 {
      assert delays[1..1] == [];
    } else if i < k - 1 {
      KeyTimesUpToClosedForm(delays, total, k - 1, i);
    } else {
      KeyTimesUpToClosedForm(delays, total, k - 1, i - 1);
      assert delays[1..i + 1][..i - 1] == delays[1..i];
      assert Sum(delays[1..i + 1]) == Sum(delays[1..i]) + delays[i];
      DivideAdd(Sum(delays[1..i]), delays[i], total);
    }
  }

  /** The last computed key time is `(total - delays[0]) / total`, which the forced final 1 follows. */
  lemma LastComputedKeyTime(delays: seq<real>)
    requires |delays| >= 1 && Sum(delays) != 0.0
    ensures KeyTimes(delays)[|delays| - 1] == (Sum(delays) - delays[0]) / Sum(delays)
    ensures KeyTimes(delays)[|delays| - 1] == 1.0 - delays[0] / Sum(delays)
  {
    LastKeyTimeIsRestShare(delays);
    SumFront(delays);
    ShareOfRemainder(KeyTimes(delays)[|delays| - 1], Sum(delays[1..]), Sum(delays), delays[0]);
  }

  /** The last computed key time is the share of every delay but the first. */
  lemma LastKeyTimeIsRestShare(delays: seq<real>)
    requires |delays| >= 1 && Sum(delays) != 0.0
    ensures KeyTimes(delays)[|delays| - 1] == Sum(delays[1..]) / Sum(delays)
  {
    KeyTimesComputed(delays, |delays| - 1);
    LastComputedShare(delays, Sum(delays));
  }

  /** For any total, the loop's last key time is the share of every delay but the first. */
  lemma LastComputedShare(delays: seq<real>, total: real)
    requires |delays| >= 1 && total != 0.0
    ensures KeyTimesUpTo(delays, total, |delays|)[|delays| - 1] == Sum(delays[1..]) / total
  {
    var n := |delays|;
    KeyTimesUpToClosedForm(delays, total, n, n - 1);
    assert delays[1..n] == delays[1..];
  }

  /** The key times before the forced final 1 are those the loop computed. */
  lemma KeyTimesComputed(delays: seq<real>, i: nat)
    requires i < |delays| && (|delays| <= 1 || Sum(delays) != 0.0)
    ensures KeyTimes(delays)[i] == KeyTimesUpTo(delays, Sum(delays), |delays|)[i]
  {
  }

  /** A share of what remains of a total once `d` is taken out. */
  lemma ShareOfRemainder(x: real, rest: real, total: real, d: real)
    requires total != 0.0 && x == rest / total && rest + d == total
    ensures x == (total - d) / total
    ensures x == 1.0 - d / total
  {
    assert total - d == rest;
    DivideAdd(rest, d, total);
    assert total / total == 1.0;
  }


  /** With every delay positive, the key times are non-decreasing and lie in [0, 1]. */
  lemma KeyTimesOrdered(delays: seq<real>)
    requires |delays| >= 1
    requires forall k :: 0 <= k < |delays| ==> delays[k] > 0.0
    ensures Sum(delays) > 0.0
    ensures var times := KeyTimes(delays);
      && (forall i :: 0 <= i < |times| ==> 0.0 <= times[i] <= 1.0)
      && (forall i, j :: 0 <= i <= j < |times| ==> times[i] <= times[j])
  {
    var n, total := |delays|, Sum(delays);
    var rest := delays[1..];
    SumFront(delays);
    SumPrefixMonotone(rest, 0, |rest|);
    assert rest[..|rest|] == rest;
    var times := KeyTimes(delays);
    // Each computed key time is a prefix sum of `rest` as a share of the total.
    forall i | 0 <= i < n
      ensures times[i] == Sum(rest[..i]) / total && 0.0 <= Sum(rest[..i]) <= Sum(rest)
    {
      KeyTimesUpToClosedForm(delays, total, n, i);
      assert delays[1..i + 1] == rest[..i];
      SumPrefixMonotone(rest, i, |rest|);
    }
    forall i | 0 <= i < |times|
      ensures 0.0 <= times[i] <= 1.0
    {
      if i < n {
        DivideBounds(Sum(rest[..i]), total);
      }
    }
    forall i, j | 0 <= i <= j < |times|
      ensures times[i] <= times[j]
    {
      if j < n {
        SumPrefixMonotone(rest, i, j);
        DivideMonotone(Sum(rest[..i]), Sum(rest[..j]), total);
      } else if i < n {
        DivideBounds(Sum(rest[..i]), total);
      }
    }
  }

  /** Division by a non-zero value distributes over addition. */
  lemma DivideAdd(a: real, b: real, t: real)
    requires t != 0.0
    ensures (a + b) / t == a / t + b / t
  {
    assert (a / t + b / t) * t == a / t * t + b / t * t == a + b;
  }

  /** Dividing a value in [0, t] by a positive t gives a value in [0, 1]. */
  lemma DivideBounds(a: real, t: real)
    requires t > 0.0 && 0.0 <= a <= t
    ensures 0.0 <= a / t <= 1.0
  {
    assert a / t * t == a;
  }

  /** Dividing by a positive value keeps order. */
  lemma DivideMonotone(a: real, b: real, t: real)
    requires t > 0.0 && a <= b
    ensures a / t <= b / t
  {
    assert b / t - a / t == (b - a) / t;
  }

  /**
   * What the as-written key times mean for display: with discrete
   * playback, frame `i` shows from key time `i` to key time `i + 1`, so
   * frame `i < n - 1` shows for `delays[i + 1]`'s share and the last frame
   * for `delays[0]`'s share: the delays are rotated by one.
   */
  lemma KeyTimesRotateDelays(delays: seq<real>)
    requires |delays| >= 1 && Sum(delays) != 0.0
    ensures var times, total := KeyTimes(delays), Sum(delays);
      && (forall i :: 0 <= i < |delays| - 1 ==> times[i + 1] - times[i] == delays[i + 1] / total)
      && times[|delays|] - times[|delays| - 1] == delays[0] / total
  {
    LastComputedKeyTime(delays);
    KeyTimesShape(delays);
  }

  /**
   * The key times a keyframe timeline needs for frame `i` to show for its
   * own delay: key time `i` is the sum of `delays[..i]` as a share of the
   * total, and the final one is 1.
   */
  function IntendedKeyTimes(delays: seq<real>): (times: seq<real>)
    requires Sum(delays) != 0.0
    ensures |times| == |delays| + 1
  {
    seq(|delays|, i requires 0 <= i < |delays| => Sum(delays[..i]) / Sum(delays)) + [1.0]
  }

  /** With the intended key times every frame shows for exactly its own delay's share. */
  lemma IntendedKeyTimesShares(delays: seq<real>)
    requires Sum(delays) != 0.0
    ensures var times, total := IntendedKeyTimes(delays), Sum(delays);
      forall i :: 0 <= i < |delays| ==> times[i + 1] - times[i] == delays[i] / total
  {
    var times, total, n := IntendedKeyTimes(delays), Sum(delays), |delays|;
    forall i | 0 <= i < n
      ensures times[i + 1] - times[i] == delays[i] / total
    {
      var before, through := Sum(delays[..i]), Sum(delays[..i + 1]);
      assert delays[..i + 1][..i] == delays[..i];
      assert through == before + delays[i];
      assert times[i] == before / total;
      if i + 1 == n {
        assert delays[..n] == delays;
        assert total / total == 1.0;
      }
      assert times[i + 1] == through / total;
      ShareStep(before, through, delays[i], total);
    }
  }

  /** Consecutive shares of a total differ by the share of what lies between them. */
  lemma ShareStep(before: real, through: real, d: real, total: real)
    requires total != 0.0 && through == before + d
    ensures through / total - before / total == d / total
  {
    DivideAdd(before, d, total);
  }

  /** The delays 0.1, 0.2, 0.1 give key times 0, 0.5, 0.75, 1 as written, where 0, 0.25, 0.75, 1 are intended. */
  lemma KeyTimesExample()
    ensures Sum([0.1, 0.2, 0.1]) == 0.4
      && KeyTimes([0.1, 0.2, 0.1]) == [0.0, 0.5, 0.75, 1.0]
      && IntendedKeyTimes([0.1, 0.2, 0.1]) == [0.0, 0.25, 0.75, 1.0]
  {
    var d := [0.1, 0.2, 0.1];
    assert d[..2] == [0.1, 0.2] && d[..1] == [0.1] && d[..0] == [];
    assert d[..2][..1] == [0.1] && d[..1][..0] == [];
    assert Sum(d[..1]) == 0.1;
    assert Sum(d[..2]) == 0.3;
    assert Sum(d) == 0.4;
    assert KeyTimesUpTo(d, 0.4, 2) == [0.0, 0.5];
  }

  /** `createAnimation`: the timeline for a frame sequence, its delays and a repeat count. */
  method CreateAnimation(images: seq<Image>, delays: seq<real>, repeatCount: int) returns (animation: Animation)
    requires |delays| <= 1 || Sum(delays) != 0.0
    ensures animation.values == images
    ensures animation.duration == Sum(delays)
    ensures animation.repeatCount == AnimationRepeat(repeatCount)
    ensures animation.keyTimes == KeyTimes(delays)
    ensures |animation.keyTimes| == (if |delays| == 0 then 1 else |delays|) + 1
    ensures animation.keyTimes[0] == 0.0 && animation.keyTimes[|animation.keyTimes| - 1] == 1.0
  {
    var totalLoopTime := Sum(delays);
    var keyTimes := [0.0];
    for index := 0 to |delays|
      invariant keyTimes == KeyTimesUpTo(delays, totalLoopTime, index)
    {
      if index > 0 {
        var lastTime := keyTimes[|keyTimes| - 1];
        keyTimes := keyTimes + [lastTime + delays[index] / totalLoopTime];
      }
    }
    keyTimes := keyTimes + [1.0];
    var repeat := if repeatCount == 0 then Forever else Times(repeatCount);
    animation := Animation(images, keyTimes, totalLoopTime, repeat);
  }

  // ---------------------------------------------------------------------
  // The view
  // ---------------------------------------------------------------------

  /** The force-decoded bitmaps of a frame sequence; `None` where force-decoding fails. */
  function ForceDecodeAll(images: seq<Image>, forceDecode: Image -> Option<Image>): (decoded: seq<Option<Image>>)
    ensures |decoded| == |images|
    ensures forall i :: 0 <= i < |images| ==> decoded[i] == forceDecode(images[i])
  {
    seq(|images|, i requires 0 <= i < |images| => forceDecode(images[i]))
  }

  /** The fetch of frame 0 that `load` makes on the source the URL opened to. */
  function FirstFetch(script: seq<Option<Source>>): (first: Fetch)
    requires NextOpen(script).Some?
    ensures first.source == NextOpen(script).value || first.reopened
  {
    var source := NextOpen(script).value;
    FetchFrame(source, source.Count(), 0, NextOpen(RestOfScript(script)))
  }

  /** The opener's script once `load` has opened the URL and fetched frame 0. */
  function ScriptAfterFirst(script: seq<Option<Source>>): (rest: seq<Option<Source>>)
    requires NextOpen(script).Some?
    ensures |script| - 2 <= |rest| < |script|
  {
    if FirstFetch(script).reopened then RestOfScript(RestOfScript(script)) else RestOfScript(script)
  }

  /** A view that plays a GIF. */
  class GIFView {
    var reader: GIFReader?
    /** The prepared animation, if the loaded GIF has more than one frame. */
    var animation: Option<Animation>
    /** The animation the layer runs under the GIF key. */
    var layerAnimation: Option<Animation>
    /** The image the layer displays. */
    var contents: Option<Image>

    /** `isAnimateableAndReadyToPlay`: an animation is prepared. */
    predicate IsAnimateableAndReadyToPlay()
      reads this
    {
      animation.Some?
    }

    /** `isPlaying`: the layer runs an animation under the GIF key. */
    predicate IsPlaying()
      reads this
    {
      layerAnimation.Some?
    }

    constructor ()
      ensures reader == null && animation.None? && layerAnimation.None? && contents.None?
    {
      reader := null;
      animation := None;
      layerAnimation := None;
      contents := None;
    }

    /** Starts the prepared animation; does nothing when none is prepared. */
    method ResumePlayback()
      modifies this`layerAnimation
      ensures old(IsAnimateableAndReadyToPlay()) ==> layerAnimation == animation && IsPlaying()
      ensures !old(IsAnimateableAndReadyToPlay()) ==> layerAnimation == old(layerAnimation)
    {
      if animation.None? {
        return;
      }
      layerAnimation := animation;
    }

    /** Removes the running animation; does nothing when none runs. */
    method PausePlayback()
      modifies this`layerAnimation
      ensures !IsPlaying()
      ensures !old(IsPlaying()) ==> layerAnimation == old(layerAnimation)
    {
      if !IsPlaying() {
        return;
      }
      layerAnimation := None;
    }

    /** `clearGIF`: unloads the GIF and clears the displayed image. */
    method ClearGIF()
      modifies this
      ensures reader == null && animation.None? && contents.None?
      ensures !IsAnimateableAndReadyToPlay() && !IsPlaying()
    {
      PausePlayback();
      reader := null;
      animation := None;
      contents := None;
    }

    /** The animation `load` prepares for a reader with more than one frame. */
    static method PrepareAnimation(gifReader: GIFReader, loopForever: bool, io: Opener, forceDecode: Image -> Option<Image>)
      returns (built: Animation)
      requires gifReader.Valid() && gifReader.numberOfFrames > 1
      modifies gifReader`imageSource, gifReader`framesCache, io
      ensures gifReader.framesCache.Some? && Sum(gifReader.frameDelays) > 0.0
      ensures old(gifReader.framesCache).None? ==>
        var w := WalkFrames(old(gifReader.imageSource), old(io.script), gifReader.numberOfFrames, gifReader.numberOfFrames);
        && gifReader.framesCache.value == Present(w.results)
        && gifReader.imageSource == w.source && io.script == w.script
        && io.calls == old(io.calls) + w.reopens
      ensures old(gifReader.framesCache).Some? ==>
        && gifReader.framesCache == old(gifReader.framesCache)
        && gifReader.imageSource == old(gifReader.imageSource)
        && io.script == old(io.script) && io.calls == old(io.calls)
      ensures built == Animation(
        Present(ForceDecodeAll(gifReader.framesCache.value, forceDecode)),
        KeyTimes(gifReader.frameDelays),
        Sum(gifReader.frameDelays),
        AnimationRepeat(LoadRepeatCount(loopForever, gifReader.loopCount)))
    {
      var readerFrames := gifReader.Frames(io);
      var frames := Present(ForceDecodeAll(readerFrames, forceDecode));
      var delays := gifReader.frameDelays;
      SumAtLeast(delays, MinimumFrameDelay);
      built := CreateAnimation(frames, delays, LoadRepeatCount(loopForever, gifReader.loopCount));
    }

    /**
     * `load(from:loopForever:complete:)`, with the background work run in
     * line; the result is what `complete` is called with.  It succeeds
     * when the URL opens, frame 0 decodes and force-decodes; it then shows
     * frame 0 and, for more than one frame, prepares the animation.
     */
    method Load(url: Url, loopForever: bool, io: Opener, forceDecode: Image -> Option<Image>) returns (loaded: bool)
      modifies this, io
      ensures !IsPlaying()
      ensures loaded <==>
        && NextOpen(old(io.script)).Some?
        && FirstFetch(old(io.script)).image.Some?
        && forceDecode(FirstFetch(old(io.script)).image.value).Some?
      ensures loaded ==> contents == forceDecode(FirstFetch(old(io.script)).image.value)
      ensures !loaded ==> reader == old(reader) && animation == old(animation) && contents == old(contents)
      ensures !loaded && NextOpen(old(io.script)).None? ==>
        io.script == RestOfScript(old(io.script)) && io.calls == old(io.calls) + 1
      ensures !loaded && NextOpen(old(io.script)).Some? ==>
        && io.script == ScriptAfterFirst(old(io.script))
        && io.calls == old(io.calls) + 1 + (if FirstFetch(old(io.script)).reopened then 1 else 0)
      ensures loaded ==>
        && reader != null && fresh(reader) && reader.Valid() && reader.url == url
        && reader.openedSource == NextOpen(old(io.script)).value
        && reader.numberOfFrames >= 1
      ensures loaded && reader.numberOfFrames > 1 ==>
        && reader.framesCache.Some? && Sum(reader.frameDelays) > 0.0
        && animation == Some(Animation(
             Present(ForceDecodeAll(reader.framesCache.value, forceDecode)),
             KeyTimes(reader.frameDelays),
             Sum(reader.frameDelays),
             AnimationRepeat(LoadRepeatCount(loopForever, reader.loopCount))))
      ensures loaded && reader.numberOfFrames > 1 ==>
        var first := FirstFetch(old(io.script));
        var w := WalkFrames(first.source, ScriptAfterFirst(old(io.script)), reader.numberOfFrames, reader.numberOfFrames);
        && reader.framesCache.value == Present(w.results)
        && reader.imageSource == w.source && io.script == w.script
        && io.calls == old(io.calls) + 1 + (if first.reopened then 1 else 0) + w.reopens
      ensures loaded && reader.numberOfFrames == 1 ==>
        var first := FirstFetch(old(io.script));
        && animation == old(animation)
        && reader.imageSource == first.source
        && io.script == ScriptAfterFirst(old(io.script))
        && io.calls == old(io.calls) + 1 + (if first.reopened then 1 else 0)
    {
      ghost var script0, calls0 := io.script, io.calls;
      PausePlayback();
      var gifReader := GIFReader.Open(url, io);
      if gifReader == null {
        return false;
      }
      var first := gifReader.Frame(0, io);
      // The fetch of frame 0 and the opener state it leaves behind.
      ghost var fetched, afterFirst := FirstFetch(script0), ScriptAfterFirst(script0);
      assert gifReader.imageSource == fetched.source && io.script == afterFirst;
      assert io.calls == calls0 + 1 + (if fetched.reopened then 1 else 0);
      if first.None? {
        return false;
      }
      var firstImage := forceDecode(first.value);
      if firstImage.None? {
        return false;
      }
      contents := firstImage;
      if gifReader.numberOfFrames > 1 {
        var built := PrepareAnimation(gifReader, loopForever, io, forceDecode);
        ghost var w := WalkFrames(fetched.source, afterFirst, gifReader.numberOfFrames, gifReader.numberOfFrames);
        assert gifReader.framesCache.value == Present(w.results);
        assert gifReader.imageSource == w.source && io.script == w.script;
        animation := Some(built);
      }
      reader := gifReader;
      loaded := true;
    }
  }
}
