/** The rank-sweep animation of worker/animate.py: the input guard, the canvas
    geometry, the output name and mode, and the frame loop of the imageio and
    cv2 backends. Drawing and encoding are abstracted: a frame is the record of
    what would be drawn, and a video is the sequence of frames appended to its
    writer. */
module Animate {
  import opened Py
  import opened Images
  import opened Engine
  import opened Text
  import Worker

  datatype Point = Point(x: int, y: int)

  /** The shortest video the creators accept, in seconds. */
  const MinDuration: int := 5

  /** The input guard: `compressor(1)` must neither return None nor raise
      AssertionError, and only then must the duration be at least 5 seconds
      and the path a string. (`Apply` raises nothing but AssertionError.) */
  function Guard(c: Compressor, path: Obj, duration: int): (passes: bool)
    ensures passes <==>
      Apply(c, 1).Return? && Apply(c, 1).value != NoneValue && duration >= MinDuration && path.StrObj?
    ensures c.Sentinel? ==> !passes
  {
    match Apply(c, 1)
    case Raise(_) => false
    case Return(v) =>
      if v == NoneValue then false
      else !(duration < MinDuration || !path.StrObj?)
  }

  /** `(9 * max(size)) // 8`. */
  function BaseSide(w: nat, h: nat): nat
  {
    (9 * Max(w, h)) / 8
  }

  /** The side of the square canvas: BaseSide bumped to the next multiple
      of 16, always by at least 1 and at most 16. */
  function CanvasSide(w: nat, h: nat): (side: nat)
    ensures side % 16 == 0
    ensures BaseSide(w, h) < side <= BaseSide(w, h) + 16
    ensures Max(w, h) < side
  {
    var l := BaseSide(w, h);
    l + 16 - l % 16
  }

  /** Where the w x h image is pasted: centred horizontally, and with
      four fifths (rounded down) of the vertical padding above it. */
  function PasteBox(w: nat, h: nat): (box: Point)
    ensures 0 <= box.x && box.x + w <= CanvasSide(w, h)
    ensures 0 <= box.y && box.y + h <= CanvasSide(w, h)
    ensures 0 <= (CanvasSide(w, h) - w - box.x) - box.x <= 1
    ensures 5 * box.y <= 4 * (CanvasSide(w, h) - h) < 5 * box.y + 5
  {
    var side := CanvasSide(w, h);
    Point((side - w) / 2, 4 * (side - h) / 5)
  }

  /** The anchor of the "n = k" label: the middle of the canvas horizontally,
      and four fifths (rounded down) of the image's top offset vertically, so
      never below the top edge of the pasted image (strictly above it
      whenever there is room). */
  function LabelAnchor(w: nat, h: nat): (anchor: Point)
    ensures 2 * anchor.x == CanvasSide(w, h)
    ensures 0 <= anchor.y <= PasteBox(w, h).y
    ensures PasteBox(w, h).y > 0 ==> anchor.y < PasteBox(w, h).y
    ensures 5 * anchor.y <= 4 * PasteBox(w, h).y < 5 * anchor.y + 5
  {
    var side := CanvasSide(w, h);
    var top := PasteBox(w, h).y;
    HalvingMultipleOf16(side);
    FourFifthsBelow(top);
    Point(side / 2, (4 * top) / 5)
  }

  lemma HalvingMultipleOf16(side: nat)
    requires side % 16 == 0
    ensures 2 * (side / 2) == side
  {
    var q := side / 16;
    assert side == 16 * q;
    assert side / 2 == 8 * q;
  }

  lemma FourFifthsBelow(y: int)
    requires y >= 0
    ensures 0 <= (4 * y) / 5 <= y
    ensures y > 0 ==> (4 * y) / 5 < y
  {
  }

  /** `int((20 * maxRank) / 256)`. */
  function FontSize(maxRank: nat): (size: nat)
    ensures 256 * size <= 20 * maxRank < 256 * (size + 1)
  {
    (20 * maxRank) / 256
  }

  /** `"L" if compressor(1).ndim == 2 else "RGB"`; a value without `.ndim`
      raises. */
  function BackgroundMode(v: Value): (r: Py<string>)
    ensures r == Return("L") <==> v.Plane?
    ensures r == Return("RGB") <==> v.Stack?
    ensures r.Raise? <==> !(v.Plane? || v.Stack?)
  {
    if v.Plane? || v.Stack? then Return(if Ndim(v) == 2 then "L" else "RGB")
    else Raise(AttributeError)
  }

  /** `''.join(path.split('.')[:-1]) + "-anim" + mode + ".mp4"`. */
  function VideoName(path: string, mode: string): (name: string)
    ensures |name| >= |mode| + 9
    ensures name[|name| - (|mode| + 9)..] == "-anim" + mode + ".mp4"
    ensures '.' !in name[..|name| - (|mode| + 9)]
  {
    var stem := AllButLast(path, '.');
    var suffix := "-anim" + mode + ".mp4";
    assert stem + "-anim" + mode + ".mp4" == stem + suffix;
    assert (stem + suffix)[..|stem|] == stem;
    AllButLast(path, '.') + "-anim" + mode + ".mp4"
  }

  /** The output name is the path up to its last dot with the remaining dots
      deleted, then "-anim", the mode and ".mp4"; without a dot the stem is
      empty. */
  lemma VideoNameStem(path: string, mode: string)
    ensures '.' !in path ==> VideoName(path, mode) == "-anim" + mode + ".mp4"
    ensures forall k :: 0 <= k < |path| && path[k] == '.' && '.' !in path[k + 1..] ==>
      VideoName(path, mode) == Remove(path[..k], '.') + "-anim" + mode + ".mp4"
  {
    if '.' !in path {
      NoSeparatorAllButLast(path, '.');
    }
    forall k | 0 <= k < |path| && path[k] == '.' && '.' !in path[k + 1..]
      ensures VideoName(path, mode) == Remove(path[..k], '.') + "-anim" + mode + ".mp4"
    {
      AllButLastIsPrefixWithoutSeparators(path, '.', k);
    }
  }

  /** Everything the frame loop needs, computed before the writer opens. */
  datatype Plan = Plan(name: string, mode: string, maxRank: nat, fontSize: nat,
                       side: nat, box: Point, anchor: Point)

  datatype Preparation = Declined | Aborted(error: Exception) | Ready(plan: Plan)

  /** The part both creators share, up to opening the writer: the guard,
      the name, the mode, `minLength(imagePath)`, the font size and the
      geometry of the image opened from the path. */
  function Prepare(env: Env, c: Compressor, path: Obj, duration: int): (p: Preparation)
    ensures p == Declined <==> !Guard(c, path, duration)
    ensures p.Ready? ==>
      path.StrObj? && duration >= MinDuration &&
      (p.plan.mode == "L" <==> Apply(c, 1).value.Plane?) &&
      (p.plan.mode == "RGB" <==> Apply(c, 1).value.Stack?) &&
      p.plan.name == VideoName(path.s, p.plan.mode) &&
      Worker.MinLength(env, path) == Return(Some(p.plan.maxRank)) &&
      p.plan.fontSize == FontSize(p.plan.maxRank) &&
      Open(env, path.s).Return? &&
      p.plan.side == CanvasSide(Open(env, path.s).value.width, Open(env, path.s).value.height) &&
      p.plan.box == PasteBox(Open(env, path.s).value.width, Open(env, path.s).value.height) &&
      p.plan.anchor == LabelAnchor(Open(env, path.s).value.width, Open(env, path.s).value.height)
    ensures Guard(c, path, duration) ==>
      var isArray := Apply(c, 1).value.Plane? || Apply(c, 1).value.Stack?;
      var m := Worker.MinLength(env, path);
      && (p.Ready? <==> isArray && m.Return? && m.value.Some? && Open(env, path.s).Return?)
      && (!isArray ==> p == Aborted(AttributeError))
      && (isArray && m.Raise? ==> p == Aborted(m.error))
      && (isArray && m == Return(None) ==> p == Aborted(TypeError))
      && (isArray && m.Return? && m.value.Some? && Open(env, path.s).Raise? ==> p == Aborted(Open(env, path.s).error))
  {
    if !Guard(c, path, duration) then Declined
    else
      var videoName := AllButLast(path.s, '.');
      match BackgroundMode(Apply(c, 1).value)
      case Raise(e) => Aborted(e)
      case Return(mode) =>
        match Worker.MinLength(env, path)
        case Raise(e) => Aborted(e)
        case Return(maxRank) =>
          if maxRank.None? then Aborted(TypeError)   // `20 * None`
          else
            var fontSize := FontSize(maxRank.value);
            match Open(env, path.s)
            case Raise(e) => Aborted(e)
            case Return(img) =>
              var w, h := img.width, img.height;
              Ready(Plan(videoName + "-anim" + mode + ".mp4", mode, maxRank.value, fontSize,
                         CanvasSide(w, h), PasteBox(w, h), LabelAnchor(w, h)))
  }

  /** A rank-1 result of False passes the guard and then raises when its
      `.ndim` is asked for. */
  lemma FalseAtRankOneRaises(env: Env, c: Compressor, path: string, duration: int)
    requires Apply(c, 1) == Return(FalseValue) && duration >= MinDuration
    ensures Prepare(env, c, StrObj(path), duration) == Aborted(AttributeError)
  {
  }

  /** A URL that is not also a local file never gets past `Image.open`. */
  lemma UrlPathAborts(env: Env, c: Compressor, path: string, duration: int)
    requires StartsWith(path, Worker.UrlPrefix) && !IsFile(env, path)
    ensures !Prepare(env, c, StrObj(path), duration).Ready?
  {
  }

  /** The label drawn on the frame of rank n. */
  function Label(n: nat): (s: string)
    ensures |s| > 4 && s[..4] == "n = " && s[4..] == NatToString(n)
  {
    "n = " + NatToString(n)
  }

  /** Different ranks get different labels. */
  lemma LabelsDistinct(a: nat, b: nat)
    requires a != b
    ensures Label(a) != Label(b)
  {
    if Label(a) == Label(b) {
      NatToStringInjective(a, b);
    }
  }

  /** What is drawn for one rank: the canvas, the reconstruction pasted at
      the box and the label at its anchor. */
  datatype Frame = Frame(rank: nat, caption: string, mode: string, side: nat,
                         box: Point, anchor: Point, picture: Value)

  /** Whether `Image.fromarray(v, mode)` accepts an array: a 2-D array in
      mode "L", or a 3-D array with at least the three planes that mode "RGB"
      reads. A 3-D array in mode "L" has too many dimensions, and a 2-D array
      or one with fewer than three planes in mode "RGB" has too little data. */
  predicate Drawable(mode: string, v: Value)
  {
    (mode == "L" && v.Plane?) || (mode == "RGB" && v.Stack? && v.depth >= 3)
  }

  /** Building the frame of rank n: `compressor(n)` either raises, or returns
      an array that `Image.fromarray` accepts in the plan's mode and that is
      pasted, or returns something it refuses: None or False, which have no
      array interface, or an array of the wrong dimensions for the mode. */
  function Render(c: Compressor, plan: Plan, n: nat): (r: Py<Frame>)
    ensures r.Return? <==> Apply(c, n).Return? && Drawable(plan.mode, Apply(c, n).value)
    ensures r.Return? ==>
      r.value == Frame(n, Label(n), plan.mode, plan.side, plan.box, plan.anchor, Apply(c, n).value)
    ensures Apply(c, n).Raise? ==> r == Raise(Apply(c, n).error)
    ensures Apply(c, n).Return? && !(Apply(c, n).value.Plane? || Apply(c, n).value.Stack?) ==>
      r == Raise(AttributeError)
    ensures Apply(c, n).Return? && (Apply(c, n).value.Plane? || Apply(c, n).value.Stack?) &&
            !Drawable(plan.mode, Apply(c, n).value) ==>
      r == Raise(ValueError)
  {
    match Apply(c, n)
    case Raise(e) => Raise(e)
    case Return(v) =>
      if !(v.Plane? || v.Stack?) then Raise(AttributeError)
      else if Drawable(plan.mode, v) then Return(Frame(n, Label(n), plan.mode, plan.side, plan.box, plan.anchor, v))
      else Raise(ValueError)
  }

  /** The frames appended so far and the exception that ended the loop, if any. */
  datatype Run = Run(frames: seq<Frame>, error: Option<Exception>)

  /** Rendering as a function of the rank alone, for one compressor and plan. */
  function Renderer(c: Compressor, plan: Plan): nat -> Py<Frame>
  {
    (n: nat) => Render(c, plan, n)
  }

  /** The loop `for n in range(1, count + 1)` over any rendering function,
      stopping at the first exception. */
  function Sweep(render: nat -> Py<Frame>, count: nat): (r: Run)
    ensures |r.frames| <= count
    ensures r.error.None? ==> |r.frames| == count
  {
    if count == 0 then Run([], None)
    else
      var prev := Sweep(render, count - 1);
      if prev.error.Some? then prev
      else
        match render(count)
        case Raise(e) => Run(prev.frames, Some(e))
        case Return(f) => Run(prev.frames + [f], None)
  }

  /** Frame i is what rendering rank i + 1 returns. */
  predicate RenderedInOrder(render: nat -> Py<Frame>, frames: seq<Frame>)
  {
    forall i :: 0 <= i < |frames| ==> render(i + 1) == Return(frames[i])
  }

  /** Frame i of a sweep is the frame of rank i + 1; a sweep that ends
      without an exception has exactly `count` frames, and one that ends
      with an exception stopped at the first rank whose frame failed. */
  lemma {:induction false} SweepFrames(render: nat -> Py<Frame>, count: nat)
    ensures |Sweep(render, count).frames| <= count
    ensures Sweep(render, count).error.None? ==> |Sweep(render, count).frames| == count
    ensures Sweep(render, count).error.Some? ==>
      |Sweep(render, count).frames| < count &&
      render(|Sweep(render, count).frames| + 1) == Raise(Sweep(render, count).error.value)
    ensures RenderedInOrder(render, Sweep(render, count).frames)
  {
    if count > 0 {
      SweepFrames(render, count - 1);
      var prev := Sweep(render, count - 1);
      if prev.error.None? && render(count).Return? {
        var frames := prev.frames + [render(count).value];
        assert Sweep(render, count).frames == frames;
        forall i | 0 <= i < |frames|
          ensures render(i + 1) == Return(frames[i])
        {
          if i < |prev.frames| {
            assert frames[i] == prev.frames[i];
          }
        }
      }
    }
  }

  /** One more rank after a run without exceptions either appends its frame
      or records its exception. */
  lemma SweepStep(render: nat -> Py<Frame>, n: nat)
    requires n >= 1 && Sweep(render, n - 1).error.None?
    ensures render(n).Raise? ==> Sweep(render, n) == Run(Sweep(render, n - 1).frames, Some(render(n).error))
    ensures render(n).Return? ==> Sweep(render, n) == Run(Sweep(render, n - 1).frames + [render(n).value], None)
  {
  }

  /** A sweep ends without an exception exactly when every rank renders. */
  lemma SweepSucceeds(render: nat -> Py<Frame>, count: nat)
    ensures Sweep(render, count).error.None? <==> forall n :: 1 <= n <= count ==> render(n).Return?
  {
    SweepFrames(render, count);
    var run := Sweep(render, count);
    if run.error.None? {
      forall n | 1 <= n <= count
        ensures render(n).Return?
      {
        assert render((n - 1) + 1) == Return(run.frames[n - 1]);
      }
    }
  }

  /** Once the loop has raised, later ranks change nothing. */
  lemma {:induction false} SweepStops(render: nat -> Py<Frame>, n: nat, count: nat)
    requires n <= count && Sweep(render, n).error.Some?
    ensures Sweep(render, count) == Sweep(render, n)
    decreases count - n
  {
    if n < count {
      SweepStops(render, n, count - 1);
    }
  }

  /** When every rank from 1 to count renders, the sweep ends without an
      exception and holds exactly those count frames in rank order. */
  lemma SweepComplete(render: nat -> Py<Frame>, count: nat)
    requires forall n :: 1 <= n <= count ==> render(n).Return?
    ensures Sweep(render, count).error == None && |Sweep(render, count).frames| == count
    ensures RenderedInOrder(render, Sweep(render, count).frames)
  {
    SweepFrames(render, count);
  }

  /** A frame rendered in order for rank i + 1 carries that rank, its
      caption and `compressor(i + 1)`. */
  lemma FrameOfRank(c: Compressor, plan: Plan, frames: seq<Frame>, i: nat)
    requires RenderedInOrder(Renderer(c, plan), frames) && i < |frames|
    ensures frames[i].rank == i + 1 && frames[i].caption == Label(i + 1)
    ensures frames[i].picture == Apply(c, i + 1).value
  {
    assert Renderer(c, plan)(i + 1) == Return(frames[i]);
  }

  /** Frames numbered 1, 2, ... in sequence appear in strictly increasing
      rank order with distinct captions. */
  lemma CaptionsInOrder(frames: seq<Frame>)
    requires forall i :: 0 <= i < |frames| ==> frames[i].rank == i + 1 && frames[i].caption == Label(i + 1)
    ensures forall i, j :: 0 <= i < j < |frames| ==>
      frames[i].rank < frames[j].rank && frames[i].caption != frames[j].caption
  {
    forall i, j | 0 <= i < j < |frames|
      ensures frames[i].rank < frames[j].rank && frames[i].caption != frames[j].caption
    {
      LabelsDistinct(i + 1, j + 1);
    }
  }

  /** For a compressor that renders every rank up to count, the animation
      holds exactly count frames, labelled "n = 1" to "n = count" in strictly
      increasing rank order, frame i showing `compressor(i + 1)`. */
  lemma AnimationFrames(c: Compressor, plan: Plan, count: nat)
    requires forall n :: 1 <= n <= count ==> Render(c, plan, n).Return?
    ensures Sweep(Renderer(c, plan), count).error == None
    ensures |Sweep(Renderer(c, plan), count).frames| == count
    ensures forall i :: 0 <= i < count ==>
      var f := Sweep(Renderer(c, plan), count).frames[i];
      f.rank == i + 1 && f.caption == Label(i + 1) && f.picture == Apply(c, i + 1).value
    ensures forall i, j :: 0 <= i < j < count ==>
      Sweep(Renderer(c, plan), count).frames[i].rank < Sweep(Renderer(c, plan), count).frames[j].rank &&
      Sweep(Renderer(c, plan), count).frames[i].caption != Sweep(Renderer(c, plan), count).frames[j].caption
  {
    var render := Renderer(c, plan);
    assert forall n :: 1 <= n <= count ==> render(n) == Render(c, plan, n);
    SweepComplete(render, count);
    var frames := Sweep(render, count).frames;
    forall i | 0 <= i < count
      ensures frames[i].rank == i + 1 && frames[i].caption == Label(i + 1) && frames[i].picture == Apply(c, i + 1).value
    {
      FrameOfRank(c, plan, frames, i);
    }
    CaptionsInOrder(frames);
  }

  /** The frame loop: render ranks 1 to count in order, appending each
      frame to the writer, until one raises. */
  method RenderFrames(render: nat -> Py<Frame>, count: nat) returns (run: Run)
    ensures run == Sweep(render, count)
  {
    var frames: seq<Frame> := [];
    var n := 1;
    while n <= count
      invariant 1 <= n <= count + 1
      invariant Sweep(render, n - 1) == Run(frames, None)
    {
      var frame := render(n);
      SweepStep(render, n);
      if frame.Raise? {
        SweepStops(render, n, count);
        return Run(frames, Some(frame.error));
      }
      frames := frames + [frame.value];
      n := n + 1;
    }
    run := Run(frames, None);
  }

  /** A writer's frame rate: `int` for imageio, `float` for cv2. */
  datatype Rate = Whole(whole: int) | Ratio(ratio: real)

  /** The video file as written: its name, rate, frame size and frames. */
  datatype Video = Video(name: string, rate: Rate, width: nat, height: nat, frames: seq<Frame>)

  datatype Outcome =
    | Rejected                                          // returned False, no file
    | Written(video: Video)                             // returned True
    | Crashed(error: Exception, partial: Option<Video>) // raised; a partial file if the writer was open

  /** `mp4Creator_imageio`, as a function of its inputs. */
  function ImageioOutcome(env: Env, c: Compressor, path: Obj, duration: int): (o: Outcome)
    ensures o.Rejected? <==> !Guard(c, path, duration)
    ensures o.Crashed? && o.partial.None? <==> Prepare(env, c, path, duration).Aborted?
    ensures o.Written? ==>
      Prepare(env, c, path, duration).Ready? &&
      |o.video.frames| == Prepare(env, c, path, duration).plan.maxRank &&
      o.video.width == o.video.height == Prepare(env, c, path, duration).plan.side &&
      o.video.rate == Whole(Prepare(env, c, path, duration).plan.maxRank / duration)
  {
    match Prepare(env, c, path, duration)
    case Declined => Rejected
    case Aborted(e) => Crashed(e, None)
    case Ready(p) =>
      var run := Sweep(Renderer(c, p), p.maxRank);
      var video := Video(p.name, Whole(p.maxRank / duration), p.side, p.side, run.frames);
      if run.error.None? then Written(video) else Crashed(run.error.value, Some(video))
  }

  /** `mp4Creator_cv2`, as a function of its inputs: it builds frame 1 once
      to size the writer, then every frame again in the loop. */
  function Cv2Outcome(env: Env, c: Compressor, path: Obj, duration: int): (o: Outcome)
    ensures o.Rejected? <==> !Guard(c, path, duration)
    ensures o.Crashed? && o.partial.None? <==>
      Prepare(env, c, path, duration).Aborted? ||
      (Prepare(env, c, path, duration).Ready? && Render(c, Prepare(env, c, path, duration).plan, 1).Raise?)
    ensures o.Written? ==>
      Prepare(env, c, path, duration).Ready? &&
      |o.video.frames| == Prepare(env, c, path, duration).plan.maxRank &&
      o.video.width == o.video.height == Prepare(env, c, path, duration).plan.side &&
      o.video.rate == Ratio(Prepare(env, c, path, duration).plan.maxRank as real / duration as real)
  {
    match Prepare(env, c, path, duration)
    case Declined => Rejected
    case Aborted(e) => Crashed(e, None)
    case Ready(p) =>
      match Render(c, p, 1)
      case Raise(e) => Crashed(e, None)
      case Return(first) =>
        var run := Sweep(Renderer(c, p), p.maxRank);
        var video := Video(p.name, Ratio(p.maxRank as real / duration as real), first.side, first.side, run.frames);
        if run.error.None? then Written(video) else Crashed(run.error.value, Some(video))
  }

  /** `mp4Creator_imageio`. */
  method Mp4CreatorImageio(env: Env, c: Compressor, path: Obj, duration: int) returns (outcome: Outcome)
    ensures outcome == ImageioOutcome(env, c, path, duration)
  {
    var prep := Prepare(env, c, path, duration);
    if prep.Declined? {
      return Rejected;
    } else if prep.Aborted? {
      return Crashed(prep.error, None);
    }
    var p := prep.plan;
    var run := RenderFrames(Renderer(c, p), p.maxRank);
    var video := Video(p.name, Whole(p.maxRank / duration), p.side, p.side, run.frames);
    if run.error.None? {
      outcome := Written(video);
    } else {
      outcome := Crashed(run.error.value, Some(video));
    }
  }

  /** `mp4Creator_cv2`. */
  method Mp4CreatorCv2(env: Env, c: Compressor, path: Obj, duration: int) returns (outcome: Outcome)
    ensures outcome == Cv2Outcome(env, c, path, duration)
  {
    var prep := Prepare(env, c, path, duration);
    if prep.Declined? {
      return Rejected;
    } else if prep.Aborted? {
      return Crashed(prep.error, None);
    }
    var p := prep.plan;
    var sizing := Render(c, p, 1);
    if sizing.Raise? {
      return Crashed(sizing.error, None);
    }
    var w, h := sizing.value.side, sizing.value.side;
    var run := RenderFrames(Renderer(c, p), p.maxRank);
    var video := Video(p.name, Ratio(p.maxRank as real / duration as real), w, h, run.frames);
    if run.error.None? {
      outcome := Written(video);
    } else {
      outcome := Crashed(run.error.value, Some(video));
    }
  }

  /** Both backends decline the same inputs, exactly those failing the
      guard. Whenever cv2 writes a video, imageio writes one with the same
      name, frame size and frames, at the integer part of cv2's rate. The
      converse fails only through cv2's extra sizing frame: when imageio
      writes a video, cv2 does too exactly when frame 1 can be drawn, which
      is always the case once there is at least one frame. */
  lemma BackendsAgree(env: Env, c: Compressor, path: Obj, duration: int)
    ensures ImageioOutcome(env, c, path, duration).Rejected? <==> Cv2Outcome(env, c, path, duration).Rejected?
    ensures ImageioOutcome(env, c, path, duration).Rejected? <==> !Guard(c, path, duration)
    ensures Cv2Outcome(env, c, path, duration).Written? ==>
      ImageioOutcome(env, c, path, duration).Written? &&
      var a, b := ImageioOutcome(env, c, path, duration).video, Cv2Outcome(env, c, path, duration).video;
      a.name == b.name && a.frames == b.frames && a.width == b.width && a.height == b.height &&
      a.rate.Whole? && b.rate.Ratio? && a.rate.whole == b.rate.ratio.Floor
    ensures ImageioOutcome(env, c, path, duration).Written? ==>
      (Cv2Outcome(env, c, path, duration).Written? <==> Render(c, Prepare(env, c, path, duration).plan, 1).Return?)
    ensures ImageioOutcome(env, c, path, duration).Written? && Prepare(env, c, path, duration).plan.maxRank >= 1 ==>
      Cv2Outcome(env, c, path, duration).Written?
  {
    var prep := Prepare(env, c, path, duration);
    if prep.Ready? {
      var p := prep.plan;
      FloorOfQuotient(p.maxRank, duration);
      var render := Renderer(c, p);
      SweepFrames(render, p.maxRank);
      var run := Sweep(render, p.maxRank);
      if run.error.None? && p.maxRank >= 1 {
        assert render(0 + 1) == Return(run.frames[0]);
        assert Render(c, p, 1).Return?;
      }
    }
  }

  /** Integer division of naturals is the floor of real division. */
  lemma FloorOfQuotient(a: nat, d: int)
    requires d > 0
    ensures (a as real / d as real).Floor == a / d
  {
    var q, r := a / d, a % d;
    assert a == q * d + r;
    assert (a as real) / (d as real) == q as real + (r as real) / (d as real);
    assert 0.0 <= (r as real) / (d as real) < 1.0;
  }

  /** A written video has exactly maxRank frames, ranks 1 to maxRank in
      order, under the name built from the path and mode, at imageio's rate
      of maxRank // duration frames per second. */
  lemma WrittenVideo(env: Env, c: Compressor, path: Obj, duration: int)
    requires ImageioOutcome(env, c, path, duration).Written?
    ensures Prepare(env, c, path, duration).Ready?
    ensures var p := Prepare(env, c, path, duration).plan;
      var v := ImageioOutcome(env, c, path, duration).video;
      && |v.frames| == p.maxRank
      && (forall i :: 0 <= i < p.maxRank ==> v.frames[i].rank == i + 1 && v.frames[i].caption == Label(i + 1))
      && v.name == VideoName(path.s, p.mode)
      && v.rate == Whole(p.maxRank / duration)
  {
    var p := Prepare(env, c, path, duration).plan;
    var render := Renderer(c, p);
    SweepFrames(render, p.maxRank);
    var frames := Sweep(render, p.maxRank).frames;
    forall i | 0 <= i < p.maxRank
      ensures frames[i].rank == i + 1 && frames[i].caption == Label(i + 1)
    {
      FrameOfRank(c, p, frames, i);
    }
  }

  /** imageio's whole-number rate is 0 for an image smaller than the
      duration: a video of fewer frames than seconds is declared to play at
      0 frames per second. */
  lemma ImageioRateVanishes(env: Env, c: Compressor, path: Obj, duration: int)
    ensures var o := ImageioOutcome(env, c, path, duration);
      o.Written? && |o.video.frames| < duration ==> o.video.rate == Whole(0)
  {
    var o := ImageioOutcome(env, c, path, duration);
    if o.Written? && |o.video.frames| < duration {
      SmallQuotient(|o.video.frames|, duration);
    }
  }

  lemma SmallQuotient(a: nat, d: int)
    requires a < d
    ensures a / d == 0
  {
  }

  /** `frames` frames at `rate` frames per second play for `seconds` seconds. */
  predicate PlaysFor(rate: real, frames: nat, seconds: int)
  {
    rate * seconds as real == frames as real
  }

  /** A rate of m / d frames per second plays m frames in d seconds. */
  lemma RateTimesDuration(rate: real, m: nat, d: int)
    requires d > 0 && rate == m as real / d as real
    ensures PlaysFor(rate, m, d)
  {
  }

  /** cv2's rate spreads the frames of a written video over exactly
      `duration` seconds: rate times duration is the number of frames. */
  lemma RateSpreadsOverDuration(env: Env, c: Compressor, path: Obj, duration: int)
    ensures var o := Cv2Outcome(env, c, path, duration);
      o.Written? ==> o.video.rate.Ratio? && PlaysFor(o.video.rate.ratio, |o.video.frames|, duration)
  {
    var o := Cv2Outcome(env, c, path, duration);
    if o.Written? {
      var p := Prepare(env, c, path, duration).plan;
      assert duration >= MinDuration;
      assert o.video.rate == Ratio(p.maxRank as real / duration as real) && |o.video.frames| == p.maxRank;
      RateTimesDuration(o.video.rate.ratio, |o.video.frames|, duration);
    }
  }

  /** Once the writer is open on plan p, imageio writes a video exactly when
      every rank renders; otherwise the partial video holds the frames of
      ranks 1 to m in order, and rank m + 1 raised the exception it ends
      with. */
  lemma ImageioLoopOutcome(env: Env, c: Compressor, path: Obj, duration: int, p: Plan)
    ensures Prepare(env, c, path, duration) == Ready(p) ==>
      var o := ImageioOutcome(env, c, path, duration);
      && (o.Written? <==> forall n :: 1 <= n <= p.maxRank ==> Render(c, p, n).Return?)
      && (o.Written? ==> RenderedInOrder(Renderer(c, p), o.video.frames))
      && (!o.Written? ==>
            o.Crashed? && o.partial.Some? && |o.partial.value.frames| < p.maxRank &&
            o.partial.value.name == p.name && o.partial.value.rate == Whole(p.maxRank / duration) &&
            RenderedInOrder(Renderer(c, p), o.partial.value.frames) &&
            Render(c, p, |o.partial.value.frames| + 1) == Raise(o.error))
  {
    if Prepare(env, c, path, duration) == Ready(p) {
      var render := Renderer(c, p);
      SweepFrames(render, p.maxRank);
      SweepSucceeds(render, p.maxRank);
      assert forall n :: 1 <= n <= p.maxRank ==> render(n) == Render(c, p, n);
      var run := Sweep(render, p.maxRank);
      var video := Video(p.name, Whole(p.maxRank / duration), p.side, p.side, run.frames);
      assert ImageioOutcome(env, c, path, duration) ==
        if run.error.None? then Written(video) else Crashed(run.error.value, Some(video));
    }
  }

  /** Once preparation gives plan p, cv2 first renders rank 1 to size its
      writer: if that raises, no video is opened. Otherwise it writes a video
      exactly when every rank renders, and a partial video holds the frames
      of ranks 1 to m in order, rank m + 1 having raised. */
  lemma Cv2LoopOutcome(env: Env, c: Compressor, path: Obj, duration: int, p: Plan)
    ensures Prepare(env, c, path, duration) == Ready(p) ==>
      var o := Cv2Outcome(env, c, path, duration);
      && (Render(c, p, 1).Raise? ==> o == Crashed(Render(c, p, 1).error, None))
      && (o.Written? <==> Render(c, p, 1).Return? && forall n :: 1 <= n <= p.maxRank ==> Render(c, p, n).Return?)
      && (o.Written? ==> RenderedInOrder(Renderer(c, p), o.video.frames))
      && (Render(c, p, 1).Return? && !o.Written? ==>
            o.Crashed? && o.partial.Some? && |o.partial.value.frames| < p.maxRank &&
            o.partial.value.name == p.name &&
            o.partial.value.rate == Ratio(p.maxRank as real / duration as real) &&
            RenderedInOrder(Renderer(c, p), o.partial.value.frames) &&
            Render(c, p, |o.partial.value.frames| + 1) == Raise(o.error))
  {
    if Prepare(env, c, path, duration) == Ready(p) {
      var render := Renderer(c, p);
      SweepFrames(render, p.maxRank);
      SweepSucceeds(render, p.maxRank);
      assert forall n :: 1 <= n <= p.maxRank ==> render(n) == Render(c, p, n);
    }
  }

  /** End to end: for an image file with at least three bands and reduced
      factors, the RGB compressor of that path makes either backend write
      exactly min(width, height) frames in mode "RGB", cv2 at
      min(width, height) / duration frames per second. */
  lemma AnimatingAnImageFile(env: Env, path: string, duration: int)
    requires IsFile(env, path) && env.files[path].ImageFile? && !StartsWith(path, Worker.UrlPrefix)
    requires ReducedBands(env.files[path].image) && |env.files[path].image.bands| >= 3
    requires MinSide(env.files[path].image) >= 1 && duration >= MinDuration
    ensures Worker.RGBImageCompression(env, path).Return?
    ensures var c := Worker.RGBImageCompression(env, path).value;
      && ImageioOutcome(env, c, StrObj(path), duration).Written?
      && |ImageioOutcome(env, c, StrObj(path), duration).video.frames| == MinSide(env.files[path].image)
      && Prepare(env, c, StrObj(path), duration).plan.mode == "RGB"
      && Cv2Outcome(env, c, StrObj(path), duration).Written?
      && |Cv2Outcome(env, c, StrObj(path), duration).video.frames| == MinSide(env.files[path].image)
      && Cv2Outcome(env, c, StrObj(path), duration).video.rate ==
           Ratio(MinSide(env.files[path].image) as real / duration as real)
  {
    var img := env.files[path].image;
    var compressor := MultiChannelImageCompressor(ImageObj(img));
    MultiChannelOnReducedImage(img, 1);
    var c := compressor.value;
    assert Worker.RGBImageCompression(env, path) == compressor;
    forall n | 1 <= n <= MinSide(img)
      ensures Apply(c, n).Return? && Apply(c, n).value.Stack? && Apply(c, n).value.depth >= 3
    {
      MultiChannelOnReducedImage(img, n);
    }
    var prep := Prepare(env, c, StrObj(path), duration);
    assert Worker.MinLength(env, StrObj(path)) == Return(Some(MinSide(img)));
    assert prep.Ready?;
    var p := prep.plan;
    forall n | 1 <= n <= p.maxRank
      ensures Render(c, p, n).Return?
    {
    }
    AnimationFrames(c, p, p.maxRank);
    BackendsAgree(env, c, StrObj(path), duration);
  }


  /** With one or two bands the stack has too few planes for mode "RGB":
      imageio crashes at rank 1 inside the loop, leaving an empty partial
      video, and cv2 crashes on its sizing frame before the writer opens. */
  lemma TooFewBandsForRgb(env: Env, path: string, duration: int)
    requires IsFile(env, path) && env.files[path].ImageFile? && !StartsWith(path, Worker.UrlPrefix)
    requires ReducedBands(env.files[path].image) && 1 <= |env.files[path].image.bands| <= 2
    requires MinSide(env.files[path].image) >= 1 && duration >= MinDuration
    ensures Worker.RGBImageCompression(env, path).Return?
    ensures var c := Worker.RGBImageCompression(env, path).value;
      && ImageioOutcome(env, c, StrObj(path), duration).Crashed?
      && ImageioOutcome(env, c, StrObj(path), duration).error == ValueError
      && ImageioOutcome(env, c, StrObj(path), duration).partial.Some?
      && ImageioOutcome(env, c, StrObj(path), duration).partial.value.frames == []
      && Cv2Outcome(env, c, StrObj(path), duration) == Crashed(ValueError, None)
  {
    var img := env.files[path].image;
    var compressor := MultiChannelImageCompressor(ImageObj(img));
    MultiChannelOnReducedImage(img, 1);
    var c := compressor.value;
    assert Worker.RGBImageCompression(env, path) == compressor;
    assert Worker.MinLength(env, StrObj(path)) == Return(Some(MinSide(img)));
    var prep := Prepare(env, c, StrObj(path), duration);
    assert prep.Ready?;
    var p := prep.plan;
    assert p.mode == "RGB" && p.maxRank == MinSide(img);
    assert Render(c, p, 1) == Raise(ValueError);
    var render := Renderer(c, p);
    SweepStep(render, 1);
    SweepStops(render, 1, p.maxRank);
    assert Sweep(render, p.maxRank) == Run([], Some(ValueError));
  }
}
