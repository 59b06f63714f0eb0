/** Runs of a machine whose steps are taken one at a time while they are enabled. */
module Runs {
  /** `step` is only asked of an enabled event. */
  datatype Machine<!W, !E> = Machine(enabled: (W, E) -> bool, step: (W, E) -> W)

  predicate IsRun<W, E>(m: Machine<W, E>, w: W, events: seq<E>)
    decreases |events|
  {
    events != [] ==> m.enabled(w, events[0]) && IsRun(m, m.step(w, events[0]), events[1..])
  }

  function End<W, E>(m: Machine<W, E>, w: W, events: seq<E>): W
    decreases |events|
  {
    if events == [] then w else End(m, m.step(w, events[0]), events[1..])
  }

  /** A run of two parts is a run of each, the second from the end of the first. */
  lemma {:induction false} Parts<W, E>(m: Machine<W, E>, w: W, first: seq<E>, second: seq<E>)
    ensures IsRun(m, w, first + second) <==> IsRun(m, w, first) && IsRun(m, End(m, w, first), second)
    ensures End(m, w, first + second) == End(m, End(m, w, first), second)
    decreases |first|
  {
    if first == [] {
      assert first + second == second;
    } else {
      assert (first + second)[1..] == first[1..] + second;
      Parts(m, m.step(w, first[0]), first[1..], second);
    }
  }

  lemma OneStep<W, E>(m: Machine<W, E>, w: W, e: E)
    ensures IsRun(m, w, [e]) <==> m.enabled(w, e)
    ensures End(m, w, [e]) == m.step(w, e)
  {
    assert [e][1..] == [];
  }

  lemma OneMore<W, E>(m: Machine<W, E>, w: W, events: seq<E>, e: E)
    ensures IsRun(m, w, events + [e]) <==> IsRun(m, w, events) && m.enabled(End(m, w, events), e)
    ensures End(m, w, events + [e]) == m.step(End(m, w, events), e)
  {
    Parts(m, w, events, [e]);
    OneStep(m, End(m, w, events), e);
  }

  lemma OneFirst<W, E>(m: Machine<W, E>, w: W, e: E, events: seq<E>)
    ensures IsRun(m, w, [e] + events) <==> m.enabled(w, e) && IsRun(m, m.step(w, e), events)
    ensures End(m, w, [e] + events) == End(m, m.step(w, e), events)
  {
    Parts(m, w, [e], events);
    OneStep(m, w, e);
  }
}
