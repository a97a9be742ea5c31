/** The sprite animation of game.js (`Animation`): a frame sequence built
    from an inclusive range, and an `update` that advances the current
    frame once every `frameSpeed` calls. */
module FrameAnimation {
  import Arith

  /** The state an `Animation` object closes over. */
  datatype Animation = Animation(frameSpeed: int, sequence: seq<int>, currentFrame: int, counter: int)

  /** `s` lists the frames `startFrame, startFrame + 1, …, endFrame`, and is
      empty when the range is. */
  predicate IsRange(s: seq<int>, startFrame: int, endFrame: int)
  {
    && |s| == (if endFrame < startFrame then 0 else endFrame - startFrame + 1)
    && forall i :: 0 <= i < |s| ==> s[i] == startFrame + i
  }

  /** The constructor's loop that pushes every frame number from
      `startFrame` up to and including `endFrame`. */
  method FrameRange(startFrame: int, endFrame: int) returns (s: seq<int>)
    ensures IsRange(s, startFrame, endFrame)
  {
    s := [];
    var frameNumber := startFrame;
    while frameNumber <= endFrame
      invariant startFrame <= frameNumber
      invariant frameNumber <= endFrame + 1 || frameNumber == startFrame
      invariant |s| == frameNumber - startFrame
      invariant forall i :: 0 <= i < |s| ==> s[i] == startFrame + i
      decreases endFrame - frameNumber
    {
      s := s + [frameNumber];
      frameNumber := frameNumber + 1;
    }
  }

  /** `new Animation(spritesheet, frameSpeed, startFrame, endFrame)`; the
      sprite sheet is only used for drawing and is not modelled. */
  method NewAnimation(frameSpeed: int, startFrame: int, endFrame: int) returns (a: Animation)
    ensures a.frameSpeed == frameSpeed && a.currentFrame == 0 && a.counter == 0
    ensures IsRange(a.sequence, startFrame, endFrame)
  {
    var s := FrameRange(startFrame, endFrame);
    a := Animation(frameSpeed, s, 0, 0);
  }

  /** The states reached from a fresh animation with a positive speed and
      at least one frame: both counters inside their ranges. */
  predicate Valid(a: Animation)
  {
    && a.frameSpeed >= 1 && |a.sequence| > 0
    && 0 <= a.counter < a.frameSpeed
    && 0 <= a.currentFrame < |a.sequence|
  }

  /** `update`: move to the next frame (cyclically) on the call where the
      counter is at `frameSpeed - 1`, then step the counter modulo
      `frameSpeed`. Both `%` are JavaScript's. A zero speed or an empty
      sequence makes the remainder `NaN`, which this model excludes. */
  function Update(a: Animation): (r: Animation)
    requires a.frameSpeed != 0 && |a.sequence| > 0
    ensures r.frameSpeed == a.frameSpeed && r.sequence == a.sequence
    ensures Valid(a) ==> Valid(r)
    ensures Valid(a) ==> r.counter == (a.counter + 1) % a.frameSpeed
    ensures Valid(a) && a.counter == a.frameSpeed - 1 ==>
              r.currentFrame == (a.currentFrame + 1) % |a.sequence|
    ensures a.counter != a.frameSpeed - 1 ==> r.currentFrame == a.currentFrame
  {
    var frame := if a.counter == a.frameSpeed - 1
                 then Arith.JsRem(a.currentFrame + 1, |a.sequence|)
                 else a.currentFrame;
    a.(currentFrame := frame, counter := Arith.JsRem(a.counter + 1, a.frameSpeed))
  }

  /** `n` calls of `update`. */
  function Updates(a: Animation, n: nat): (r: Animation)
    requires a.frameSpeed != 0 && |a.sequence| > 0
    ensures r.frameSpeed == a.frameSpeed && r.sequence == a.sequence
    decreases n
  {
    if n == 0 then a else Updates(Update(a), n - 1)
  }

  /** `n` updates split after the first `n - 1`. */
  lemma {:induction false} UpdatesSucc(a: Animation, n: nat)
    requires a.frameSpeed != 0 && |a.sequence| > 0
    ensures Updates(a, n + 1) == Update(Updates(a, n))
    decreases n
  {
    if n > 0 {
      UpdatesSucc(Update(a), n - 1);
    }
  }

  /** Closed form of the two counters: after `n` updates of a fresh
      animation the counter is `n mod frameSpeed` and the frame shown is
      `(n div frameSpeed) mod |sequence|`, so each frame is held for
      exactly `frameSpeed` updates and the sequence repeats. */
  lemma {:induction false} UpdatesClosedForm(frameSpeed: int, sequence: seq<int>, n: nat)
    requires frameSpeed >= 1 && |sequence| > 0
    ensures Updates(Animation(frameSpeed, sequence, 0, 0), n)
            == Animation(frameSpeed, sequence, (n / frameSpeed) % |sequence|, n % frameSpeed)
    decreases n
  {
    if n > 0 {
      var m := n - 1;
      var a := Animation(frameSpeed, sequence, 0, 0);
      UpdatesClosedForm(frameSpeed, sequence, m);
      UpdatesSucc(a, m);
      var b := Updates(a, m);
      assert Valid(b);
      var c := Update(b);
      var q, L := m / frameSpeed, |sequence|;
      Arith.DivModSucc(m, frameSpeed);
      Arith.DivModSucc(q, L);
      if m % frameSpeed == frameSpeed - 1 {
        Arith.DivModUnique(frameSpeed, frameSpeed, 1, 0);
        assert c.counter == 0;
        if q % L == L - 1 {
          Arith.DivModUnique(L, L, 1, 0);
        } else {
          Arith.DivModUnique(q % L + 1, L, 0, q % L + 1);
        }
        assert c.currentFrame == (q + 1) % L;
      } else {
        Arith.DivModUnique(m % frameSpeed + 1, frameSpeed, 0, m % frameSpeed + 1);
        assert c.counter == (m + 1) % frameSpeed;
        assert c.currentFrame == q % L;
      }
    }
  }

  /** A negative `frameSpeed` is not rejected by the source: the counter
      then cycles through `0 .. |frameSpeed| - 1` (JavaScript's `%` takes
      the sign of the dividend) and never equals `frameSpeed - 1`, so the
      frame never changes. */
  lemma NegativeSpeedHolds(a: Animation)
    requires a.frameSpeed < 0 && |a.sequence| > 0 && 0 <= a.counter < -a.frameSpeed
    ensures Update(a).currentFrame == a.currentFrame
    ensures 0 <= Update(a).counter < -a.frameSpeed
  {
  }

  /** The player's animation, `new Animation(player.sheet, 4, 1, 1)`, has
      the one frame `[1]`, so it shows frame 0 of it after any number of
      updates. */
  lemma PlayerAnimationStill(n: nat)
    ensures Updates(Animation(4, [1], 0, 0), n).currentFrame == 0
  {
    UpdatesClosedForm(4, [1], n);
  }
}
