/** The temporal check of scripts/6.31_pts_check.py: the presentation timestamps of the
    first frames of a stream are collected, and the stream counts as advancing when at
    most one timestamp fails to exceed its predecessor. */
module PtsCheck {
  import opened Common
  import Text

  const MIN_PTS: nat := 5
  const SAMPLES: nat := 10

  /** One frame's `pkt_pts_time`: missing (or JSON null), not a number, or its value. */
  datatype FramePts = Absent | Unparseable | Value(t: real)

  /** What running ffprobe gave: a timeout, a non-zero exit with its standard error,
      output that is not JSON, or the frame list (`[]` when the key is missing). */
  datatype ToolOutcome = Timeout | NonZero(stderr: string) | BadJson | Frames(frames: seq<FramePts>)

  /** The result dictionary of `probe_pts`. */
  datatype PtsResult =
    | Fail(reason: string, stderr: Option<string>, keptCount: Option<nat>)
    | Ok(ptsCount: nat, ptsSpan: real, backwardCount: nat, isMonotonic: bool, ptsSamples: seq<real>)

  /** The timestamps that parse, in frame order. */
  function Kept(frames: seq<FramePts>): (pts: seq<real>)
    ensures |pts| <= |frames|
    ensures forall x :: x in pts <==> Value(x) in frames
  {
    if |frames| == 0 then []
    else (if frames[0].Value? then [frames[0].t] else []) + Kept(frames[1..])
  }

  /** The number of positions i >= 1 with `pts[i] <= pts[i - 1]`. */
  function Backward(pts: seq<real>): nat
  {
    if |pts| < 2 then 0
    else Backward(pts[..|pts| - 1]) + (if pts[|pts| - 1] <= pts[|pts| - 2] then 1 else 0)
  }

  predicate StrictlyIncreasing(pts: seq<real>)
  {
    forall i :: 1 <= i < |pts| ==> pts[i - 1] < pts[i]
  }

  /** There are at most n - 1 backward steps among n timestamps. */
  lemma {:induction false} BackwardBound(pts: seq<real>)
    requires |pts| >= 1
    ensures Backward(pts) <= |pts| - 1
  {
    if |pts| >= 2 {
      BackwardBound(pts[..|pts| - 1]);
    }
  }

  /** No backward step exactly when the timestamps strictly increase. */
  lemma {:induction false} BackwardZeroIff(pts: seq<real>)
    ensures Backward(pts) == 0 <==> StrictlyIncreasing(pts)
  {
    if |pts| >= 2 {
      var init := pts[..|pts| - 1];
      BackwardZeroIff(init);
      if StrictlyIncreasing(pts) {
        assert StrictlyIncreasing(init) by {
          forall i | 1 <= i < |init| ensures init[i - 1] < init[i] {
            assert init[i - 1] == pts[i - 1] && init[i] == pts[i];
          }
        }
      }
      if Backward(pts) == 0 {
        forall i | 1 <= i < |pts| ensures pts[i - 1] < pts[i] {
          if i < |pts| - 1 {
            assert init[i - 1] == pts[i - 1] && init[i] == pts[i];
          }
        }
      }
    }
  }

  /** The three worked cases: steady, one step back, two steps back. */
  lemma MonotonicExamples()
    ensures Backward([0.0, 1.0, 2.0, 3.0, 4.0]) == 0
    ensures Backward([0.0, 1.0, 0.5, 2.0, 3.0]) == 1
    ensures Backward([0.0, 1.0, 0.5, 2.0, 1.5]) == 2
  {
    var p := [0.0, 1.0];
    assert Backward(p) == 0 by {
      assert p[..1] == [0.0];
    }
    BackwardSnoc(p, 2.0);
    BackwardSnoc(p + [2.0], 3.0);
    BackwardSnoc(p + [2.0] + [3.0], 4.0);
    assert p + [2.0] + [3.0] + [4.0] == [0.0, 1.0, 2.0, 3.0, 4.0];
    BackwardSnoc(p, 0.5);
    BackwardSnoc(p + [0.5], 2.0);
    BackwardSnoc(p + [0.5] + [2.0], 3.0);
    assert p + [0.5] + [2.0] + [3.0] == [0.0, 1.0, 0.5, 2.0, 3.0];
    BackwardSnoc(p + [0.5] + [2.0], 1.5);
    assert p + [0.5] + [2.0] + [1.5] == [0.0, 1.0, 0.5, 2.0, 1.5];
  }

  /** Appending one timestamp adds one backward step when it does not exceed the last. */
  lemma BackwardSnoc(s: seq<real>, x: real)
    requires |s| >= 1
    ensures Backward(s + [x]) == Backward(s) + (if x <= s[|s| - 1] then 1 else 0)
  {
    assert (s + [x])[..|s|] == s;
  }

  function Max(xs: seq<real>): (m: real)
    requires |xs| > 0
    ensures m in xs && forall i :: 0 <= i < |xs| ==> xs[i] <= m
  {
    if |xs| == 1 then xs[0]
    else var r := Max(xs[1..]); if xs[0] >= r then xs[0] else r
  }

  function Min(xs: seq<real>): (m: real)
    requires |xs| > 0
    ensures m in xs && forall i :: 0 <= i < |xs| ==> m <= xs[i]
  {
    if |xs| == 1 then xs[0]
    else var r := Min(xs[1..]); if xs[0] <= r then xs[0] else r
  }

  /** The filtering loop. */
  method CollectPts(frames: seq<FramePts>) returns (pts: seq<real>)
    ensures pts == Kept(frames)
  {
    pts := [];
    assert frames[0..] == frames;
    for i := 0 to |frames|
      invariant pts + Kept(frames[i..]) == Kept(frames)
    {
      KeptStep(frames, i, pts);
      if frames[i].Value? {
        pts := pts + [frames[i].t];
      }
    }
    assert frames[|frames|..] == [];
  }

  /** One turn of the collecting loop: a parsed timestamp moves from the frames still to
      read to the list collected. */
  lemma KeptStep(frames: seq<FramePts>, i: nat, pts: seq<real>)
    requires i < |frames|
    ensures pts + Kept(frames[i..]) ==
      (if frames[i].Value? then pts + [frames[i].t] else pts) + Kept(frames[i + 1..])
  {
    assert frames[i..][1..] == frames[i + 1..];
    if frames[i].Value? {
      MoveHead(pts, frames[i].t, Kept(frames[i + 1..]), Kept(frames[i..]));
    }
  }

  /** The counting loop. */
  method CountBackward(pts: seq<real>) returns (backward: nat)
    ensures backward == Backward(pts)
  {
    backward := 0;
    if |pts| == 0 {
      return;
    }
    var i := 1;
    while i < |pts|
      invariant 1 <= i <= |pts|
      invariant backward == Backward(pts[..i])
    {
      assert pts[..i + 1][..i] == pts[..i];
      if pts[i] <= pts[i - 1] {
        backward := backward + 1;
      }
      i := i + 1;
    }
    assert pts[..i] == pts;
  }

  /** `probe_pts` from the tool's outcome on. */
  method ProbePts(outcome: ToolOutcome) returns (r: PtsResult)
    ensures outcome.Timeout? ==> r == Fail("timeout", None, None)
    ensures outcome.NonZero? ==> r == Fail("ffprobe_error", Some(Text.Strip(outcome.stderr)), None)
    ensures outcome.BadJson? ==> r == Fail("json_parse_error", None, None)
    ensures outcome.Frames? && |Kept(outcome.frames)| < MIN_PTS ==>
      r == Fail("too_few_pts", None, Some(|Kept(outcome.frames)|))
    ensures outcome.Frames? && |Kept(outcome.frames)| >= MIN_PTS ==>
      var pts := Kept(outcome.frames);
      r.Ok? && r.ptsCount == |pts| && r.backwardCount == Backward(pts) &&
      r.backwardCount <= |pts| - 1 &&
      (r.isMonotonic <==> r.backwardCount <= 1) &&
      (r.backwardCount == 0 <==> StrictlyIncreasing(pts)) &&
      r.ptsSpan >= 0.0 && r.ptsSpan == Max(pts) - Min(pts) &&
      r.ptsSamples == pts[..if |pts| < SAMPLES then |pts| else SAMPLES]
  {
    match outcome
    case Timeout =>
      return Fail("timeout", None, None);
    case NonZero(err) =>
      return Fail("ffprobe_error", Some(Text.Strip(err)), None);
    case BadJson =>
      return Fail("json_parse_error", None, None);
    case Frames(frames) =>
      var pts := CollectPts(frames);
      if |pts| < MIN_PTS {
        return Fail("too_few_pts", None, Some(|pts|));
      }
      var backward := CountBackward(pts);
      BackwardBound(pts);
      BackwardZeroIff(pts);
      var span := Max(pts) - Min(pts);
      var n := if |pts| < SAMPLES then |pts| else SAMPLES;
      r := Ok(|pts|, span, backward, backward <= 1, pts[..n]);
  }
}
