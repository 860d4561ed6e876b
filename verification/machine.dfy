/** Both components are driven the same way: one event at a time (a reply
    arriving, the interval firing, a user edit) moves the state and may hand
    new requests to the network. */
module Machine {
  import opened Net

  datatype Transition<S> = Transition(next: S, requests: seq<Request>)

  /** Feeds `events` to `step` in order from `s`, collecting the requests. */
  function Run<S, E>(step: (S, E) -> Transition<S>, s: S, events: seq<E>): (t: Transition<S>)
    ensures events == [] ==> t == Transition(s, [])
    decreases |events|
  {
    if events == [] then Transition(s, [])
    else
      var first := step(s, events[0]);
      var rest := Run(step, first.next, events[1..]);
      Transition(rest.next, first.requests + rest.requests)
  }

  /** Running two traces back to back is running their concatenation. */
  lemma {:induction false} RunAppend<S, E>(step: (S, E) -> Transition<S>, s: S, a: seq<E>, b: seq<E>)
    ensures Run(step, s, a + b).next == Run(step, Run(step, s, a).next, b).next
    ensures Run(step, s, a + b).requests == Run(step, s, a).requests + Run(step, Run(step, s, a).next, b).requests
    decreases |a|
  {
    if a == [] {
      assert a + b == b;
    } else {
      assert (a + b)[0] == a[0] && (a + b)[1..] == a[1..] + b;
      var first := step(s, a[0]);
      RunAppend(step, first.next, a[1..], b);
      assert Run(step, s, a).requests == first.requests + Run(step, first.next, a[1..]).requests;
    }
  }
}
