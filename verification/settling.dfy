/** What repeated frames do to one llama: rest stays rest, the bounce budget
    never grows, and at the nominal frame length every llama comes to rest. */
module Settling {
  import opened Physics

  /** One frame as the loop sees it: the ground of that moment and the frame
      length. The ground may differ from one frame to the next. */
  datatype Moment = Moment(ground: real, dt: real)

  /** A llama advanced through the given frames, first to last. */
  function Run<E>(l: Llama<E>, frames: seq<Moment>): Llama<E>
    decreases |frames|
  {
    if |frames| == 0 then l
    else Run(Step(l, frames[0].ground, frames[0].dt), frames[1..])
  }

  /** A resting llama is left exactly as it is by any number of frames. */
  lemma {:induction false} RunRestIsAbsorbing<E>(l: Llama<E>, frames: seq<Moment>)
    requires l.phase == Resting
    ensures Run(l, frames) == l
    decreases |frames|
  {
    if |frames| > 0 {
      RunRestIsAbsorbing(l, frames[1..]);
    }
  }

  /** Over any sequence of frames the bounce budget never grows, never goes
      negative when it started out non-negative, and the record invariant and
      the passthrough fields survive. */
  lemma {:induction false} RunKeepsBudget<E>(l: Llama<E>, frames: seq<Moment>)
    ensures Budget(Run(l, frames)) <= Budget(l)
    ensures Budget(l) >= 0 ==> Budget(Run(l, frames)) >= 0
    ensures Sound(l) ==> Sound(Run(l, frames))
    ensures Run(l, frames).extra == l.extra
    decreases |frames|
  {
    if |frames| > 0 {
      var r := Step(l, frames[0].ground, frames[0].dt);
      if Sound(l) {
        StepKeepsSound(l, frames[0].ground, frames[0].dt);
      }
      RunKeepsBudget(r, frames[1..]);
    }
  }

  /** `n` nominal frames (length 1) against a fixed ground. */
  function Settle<E>(l: Llama<E>, ground: real, n: nat): Llama<E>
    decreases n
  {
    if n == 0 then l else Settle(Step(l, ground, 1.0), ground, n - 1)
  }

  /** The bounces a llama may still take, as a count that cannot go below 0. */
  function BouncesLeft<E>(l: Llama<E>): nat
  {
    if Budget(l) > 0 then Budget(l) else 0
  }

  /** Frames of gravity left before an upward vertical speed is used up. */
  function RiseFrames<E>(l: Llama<E>): nat
  {
    if l.vy < 0.0 then ((-l.vy) / Gravity).Floor + 1 else 0
  }

  /** A bound on the falling frames left before the ground is reached once
      the llama moves down at least as fast as gravity makes it. */
  function FallFrames<E>(l: Llama<E>, ground: real): nat
  {
    if l.y < ground then ((ground - l.y) / Gravity).Floor else 0
  }

  /** A nominal frame that leaves a llama flying brings it closer to rest:
      it spends a bounce, or uses up some upward speed, or falls at least
      one gravity step closer to the ground. */
  lemma NominalStepProgress<E>(l: Llama<E>, ground: real)
    requires l.phase != Resting
    requires Step(l, ground, 1.0).phase != Resting
    ensures var r := Step(l, ground, 1.0);
            BouncesLeft(r) < BouncesLeft(l) ||
            (BouncesLeft(r) == BouncesLeft(l) && RiseFrames(r) < RiseFrames(l)) ||
            (BouncesLeft(r) == BouncesLeft(l) && RiseFrames(r) == RiseFrames(l) &&
             FallFrames(r, ground) < FallFrames(l, ground))
  {
  }

  /** At the nominal frame length every llama comes to rest after finitely
      many frames: each frame that leaves it flying spends a bounce, uses up
      upward speed or brings it closer to the ground, and a landing with no
      bounce left ends the flight. */
  lemma {:induction false} EventuallyRests<E>(l: Llama<E>, ground: real)
    ensures exists n: nat :: Settle(l, ground, n).phase == Resting
    decreases BouncesLeft(l), RiseFrames(l), FallFrames(l, ground)
  {
    if l.phase == Resting {
      assert Settle(l, ground, 0).phase == Resting;
    } else {
      var r := Step(l, ground, 1.0);
      if r.phase == Resting {
        assert Settle(l, ground, 1) == Settle(r, ground, 0);
      } else {
        NominalStepProgress(l, ground);
        EventuallyRests(r, ground);
        var n: nat :| Settle(r, ground, n).phase == Resting;
        assert Settle(l, ground, n + 1) == Settle(r, ground, n);
      }
    }
  }

  /** Once the budget is spent, the next landing rests the llama on the
      ground, however many frames it spends in the air first and whatever
      grounds and frame lengths they have. */
  lemma NoBudgetLandingRests<E>(l: Llama<E>, frames: seq<Moment>, ground: real, dt: real)
    requires Budget(l) <= 0
    ensures var m := Run(l, frames);
            m.phase != Resting && FallHeight(m, dt) >= ground ==>
              Step(m, ground, dt).phase == Resting && Step(m, ground, dt).y == ground &&
              Step(m, ground, dt).vx == 0.0 && Step(m, ground, dt).vy == 0.0
  {
    RunKeepsBudget(l, frames);
    var m := Run(l, frames);
    if m.phase != Resting && FallHeight(m, dt) >= ground {
      LandingRests(m, ground, dt);
    }
  }

  /** A llama with one bounce left that bounces keeps flying with budget 0,
      and its next ground contact, after any frames in the air, ends the
      flight on the ground. */
  lemma LastBounceThenRests<E>(l: Llama<E>, ground: real, dt: real,
                               frames: seq<Moment>, ground': real, dt': real)
    requires l.phase != Resting && Budget(l) == 1
    requires FallHeight(l, dt) >= ground
    requires Abs(FallVelocity(l.vy, dt)) >= StopThreshold
    requires !Stopped(l.vx * Friction, -Abs(FallVelocity(l.vy, dt)) * BounceDampening)
    ensures var r := Step(l, ground, dt);
            var m := Run(r, frames);
            r.phase == Flying && Budget(r) == 0 &&
            (m.phase != Resting && FallHeight(m, dt') >= ground' ==>
               Step(m, ground', dt').phase == Resting && Step(m, ground', dt').y == ground')
  {
    BounceOutcome(l, ground, dt);
    NoBudgetLandingRests(Step(l, ground, dt), frames, ground', dt');
  }
}
