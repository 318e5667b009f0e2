/** One frame of the animation loop, without the scheduler around it: the
    frame length derived from the clock, the update applied to every llama in
    order, and the test that decides whether the loop runs at all. */
module Ticker {
  import opened Physics

  const FrameMillis: real := 16.0   // milliseconds in one nominal frame
  const MaxDeltaTime: real := 2.0   // longest frame a single update may take

  /** A frame's length in nominal frames, from the clock readings `now` and
      `last` in milliseconds: the elapsed time over 16, capped above at 2.
      There is no cap below: a clock that goes back gives a negative length. */
  function DeltaTime(now: int, last: int): (dt: real)
    ensures dt <= MaxDeltaTime
    ensures dt <= (now - last) as real / FrameMillis
    ensures dt == MaxDeltaTime || dt == (now - last) as real / FrameMillis
  {
    var elapsed := (now - last) as real / FrameMillis;
    if elapsed < MaxDeltaTime then elapsed else MaxDeltaTime
  }

  /** A frame that took exactly 16 milliseconds is one nominal frame. */
  lemma NominalFrame(now: int, last: int)
    requires now - last == 16
    ensures DeltaTime(now, last) == 1.0
  {
  }

  /** Nothing keeps the frame length from going negative. */
  lemma NoLowerCap(now: int, last: int)
    requires now < last
    ensures DeltaTime(now, last) < 0.0
  {
  }

  /** Every llama advanced by the same frame, in the same order. */
  function Tick<E>(llamas: seq<Llama<E>>, ground: real, dt: real): (r: seq<Llama<E>>)
    ensures |r| == |llamas|
    ensures forall i :: 0 <= i < |llamas| ==> r[i] == Step(llamas[i], ground, dt)
  {
    if |llamas| == 0 then []
    else [Step(llamas[0], ground, dt)] + Tick(llamas[1..], ground, dt)
  }

  /** A llama the loop still has to move. */
  predicate Active<E>(l: Llama<E>)
  {
    l.phase != Resting
  }

  /** Whether the collection holds a llama that is not resting; the loop is
      started only when it does. */
  function HasActive<E>(llamas: seq<Llama<E>>): (b: bool)
    ensures b <==> exists i :: 0 <= i < |llamas| && Active(llamas[i])
  {
    if |llamas| == 0 then false
    else Active(llamas[0]) || HasActive(llamas[1..])
  }

  /** The outcome of one frame: its length and the updated collection. */
  datatype Frame<E> = Frame(dt: real, llamas: seq<Llama<E>>)

  /** One frame of the loop: the frame length from the clock, then every
      llama advanced by it against the current ground. */
  function Animate<E>(prev: seq<Llama<E>>, ground: real, now: int, last: int): (f: Frame<E>)
    ensures f.dt == DeltaTime(now, last) && f.dt <= MaxDeltaTime
    ensures |f.llamas| == |prev|
    ensures forall i :: 0 <= i < |prev| ==> f.llamas[i] == Step(prev[i], ground, f.dt)
  {
    var dt := DeltaTime(now, last);
    Frame(dt, Tick(prev, ground, dt))
  }

  /** A collection in which every llama rests is left exactly as it was by a
      frame, so not starting the loop for it loses nothing. */
  lemma QuiescentTickIsIdentity<E>(llamas: seq<Llama<E>>, ground: real, dt: real)
    requires !HasActive(llamas)
    ensures Tick(llamas, ground, dt) == llamas
  {
  }

  /** A frame keeps every llama's record invariant, its identity and its
      place in the collection, and never grows a bounce budget. */
  lemma TickKeepsLlamas<E>(llamas: seq<Llama<E>>, ground: real, dt: real)
    requires forall i :: 0 <= i < |llamas| ==> Sound(llamas[i])
    ensures var r := Tick(llamas, ground, dt);
            (forall i :: 0 <= i < |r| ==> Sound(r[i])) &&
            (forall i :: 0 <= i < |r| ==> r[i].extra == llamas[i].extra) &&
            (forall i :: 0 <= i < |r| ==> Budget(r[i]) <= Budget(llamas[i]))
  {
  }

  /** After a frame, every llama that was moving sits on or above the
      ground it was advanced against. */
  lemma TickKeepsAboveGround<E>(llamas: seq<Llama<E>>, ground: real, dt: real)
    ensures var r := Tick(llamas, ground, dt);
            forall i :: 0 <= i < |r| && Active(llamas[i]) ==> r[i].y <= ground
  {
  }
}
