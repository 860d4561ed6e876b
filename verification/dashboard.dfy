/** The auto-loading dashboard: the item list is fetched once when the
    component mounts, and the status map is fetched at mount and then on
    every firing of the interval, whatever the state. While the load is
    pending or after it failed, no list is rendered. */
module Dashboard {
  import opened Wrappers
  import opened Net
  import opened View
  import opened Machine
  import opened Component

  const DataUrl := "/api/data"

  datatype Event =
    | DataReplied(dataReply: Reply<seq<Item>>)       // the one load settles
    | StatusReplied(statusReply: Reply<StatusMap>)   // a status fetch settles
    | IntervalFired                                  // the 30-second timer
    | FilterEdited(text: string)                     // typing in the filter box
    | SortClicked                                    // the sort button

  /** The first render and its two effects, in order: the load of the item
      list and the immediate status fetch. */
  function Mount(): (t: Transition<State>)
    ensures t.next.loading && t.next.error == None
    ensures t.next.data == [] && t.next.statusData == map[]
    ensures t.next.sortOrder == Asc && t.next.filterText == ""
    ensures t.requests == [Get(DataUrl), Get(StatusUrl)]
  {
    Transition(State([], map[], true, None, Asc, ""), [Get(DataUrl), Get(StatusUrl)])
  }

  /** The load's `try`/`catch`/`finally`: on success the list is stored, on
      failure the message; either way loading ends. */
  function OnData(s: State, reply: Reply<seq<Item>>): State
  {
    match Settle(reply, DataFailed)
    case Success(items) => s.(data := items, loading := false)
    case Failure(m) => s.(error := Some(m), loading := false)
  }

  function Step(s: State, e: Event): (t: Transition<State>)
    ensures e.DataReplied? ==>
              && !t.next.loading
              && t.next.statusData == s.statusData
              && t.requests == []
              && match Settle(e.dataReply, DataFailed)
                 case Success(items) => t.next.data == items && t.next.error == s.error
                 case Failure(m) => t.next.data == s.data && t.next.error == Some(m)
    ensures e.StatusReplied? ==>
              && t.next == s.(statusData := t.next.statusData)
              && t.requests == []
              && t.next.statusData == (if e.statusReply.Reply? && e.statusReply.ok then e.statusReply.body
                                       else s.statusData)
    ensures e.IntervalFired? ==> t.next == s && t.requests == [Get(StatusUrl)]
    ensures !e.FilterEdited? ==> t.next.filterText == s.filterText
    ensures !e.SortClicked? ==> t.next.sortOrder == s.sortOrder
    ensures e.FilterEdited? ==> t.next == s.(filterText := e.text) && t.requests == []
    ensures e.SortClicked? ==> t.next == s.(sortOrder := ToggleSort(s.sortOrder)) && t.requests == []
  {
    match e
    case DataReplied(reply) => Transition(OnData(s, reply), [])
    case StatusReplied(reply) => Transition(OnStatus(s, reply), [])
    case IntervalFired => Transition(s, [Get(StatusUrl)])
    case FilterEdited(text) => Transition(s.(filterText := text), [])
    case SortClicked => Transition(s.(sortOrder := ToggleSort(s.sortOrder)), [])
  }

  // ---------------------------------------------------------------------------
  // Render
  // ---------------------------------------------------------------------------

  datatype Screen = LoadingText | ErrorText(message: string) | List(rows: seq<ViewItem>)

  /** The two early returns, then the list. */
  function Render(s: State): (r: Screen)
    ensures r.List? <==> !s.loading && !ErrorShown(s)
    ensures r.LoadingText? <==> s.loading
    ensures r.ErrorText? ==> Some(r.message) == s.error && r.message != ""
    ensures r.List? ==> r.rows == Displayed(s)
  {
    if s.loading then LoadingText
    else if ErrorShown(s) then ErrorText(s.error.value)
    else List(Displayed(s))
  }

  // ---------------------------------------------------------------------------
  // Runs from mount
  // ---------------------------------------------------------------------------

  /** A trace in which the load does not settle. */
  predicate NoDataReply(events: seq<Event>)
  {
    forall i :: 0 <= i < |events| ==> !events[i].DataReplied?
  }

  /** Events other than the load's reply never touch the list, the loading
      flag or the error. */
  lemma {:induction false} OtherEventsKeepLoad(s: State, events: seq<Event>)
    requires NoDataReply(events)
    ensures var f := Run(Step, s, events).next;
            f.data == s.data && f.loading == s.loading && f.error == s.error
    decreases |events|
  {
    if events != [] {
      assert !events[0].DataReplied?;
      OtherEventsKeepLoad(Step(s, events[0]).next, events[1..]);
    }
  }

  /** Until the load settles, the screen says "Loading..." whatever else
      happens: polls, edits and sort clicks render no list. */
  lemma LoadingUntilReply(events: seq<Event>)
    requires NoDataReply(events)
    ensures Render(Run(Step, Mount().next, events).next) == LoadingText
  {
    OtherEventsKeepLoad(Mount().next, events);
  }

  /** However the one load settles, loading is over afterwards; a success
      stores the list with no error, a failure stores the error and leaves
      the list empty. */
  lemma InitialLoadSettles(before: seq<Event>, reply: Reply<seq<Item>>, after: seq<Event>)
    requires NoDataReply(before) && NoDataReply(after)
    ensures var f := Run(Step, Mount().next, before + [DataReplied(reply)] + after).next;
            && !f.loading
            && match Settle(reply, DataFailed)
               case Success(items) => f.data == items && f.error == None && Render(f) == List(Displayed(f))
               case Failure(m) => f.data == [] && f.error == Some(m) && (m != "" ==> Render(f) == ErrorText(m))
  {
    var s0 := Mount().next;
    var s1 := Run(Step, s0, before).next;
    OtherEventsKeepLoad(s0, before);
    var s2 := Step(s1, DataReplied(reply)).next;
    assert Run(Step, s1, [DataReplied(reply)]).next == s2;
    OtherEventsKeepLoad(s2, after);
    RunAppend(Step, s0, before, [DataReplied(reply)]);
    RunAppend(Step, s0, before + [DataReplied(reply)], after);
  }

  /** Polling is unconditional: every firing of the interval fetches the
      status map, and nothing else does after mount. */
  lemma {:induction false} PollsOnEveryInterval(s: State, events: seq<Event>)
    ensures StatusFetches(Run(Step, s, events).requests) == multiset(events)[IntervalFired]
    decreases |events|
  {
    if events != [] {
      var t := Step(s, events[0]);
      PollsOnEveryInterval(t.next, events[1..]);
      assert events == [events[0]] + events[1..];
      assert multiset(t.requests + Run(Step, t.next, events[1..]).requests)
          == multiset(t.requests) + multiset(Run(Step, t.next, events[1..]).requests);
    }
  }
}
