/** The on-demand dashboard: the item list is fetched only when the user asks
    for it, with a search query, and each new list replaces the old one and
    clears the status map. The status map is polled only while the list is
    non-empty; each new non-empty list triggers one immediate status fetch
    before the interval is armed again. Errors are shown inline above the
    list, which is always rendered. */
module SearchDashboard {
  import opened Wrappers
  import opened Net
  import opened View
  import opened Machine
  import opened Component


  /** The query the "Load Data" button passes. */
  const ButtonQuery := "example"

  const SearchPrefix := "/api/data?search="

  /** The search URL, with the query interpolated as it is (no escaping):
      the query can be read back from the URL. */
  function DataUrl(query: string): (url: string)
    ensures |url| == |SearchPrefix| + |query|
    ensures url[..|SearchPrefix|] == SearchPrefix && url[|SearchPrefix|..] == query
  {
    SearchPrefix + query
  }

  datatype Event =
    | LoadClicked(query: string)                     // `fetchData(query)` starts; the button passes ButtonQuery
    | DataReplied(dataReply: Reply<seq<Item>>)       // its fetch settles
    | StatusReplied(statusReply: Reply<StatusMap>)   // a status fetch settles
    | IntervalFired                                  // the 30-second timer
    | FilterEdited(text: string)                     // typing in the filter box
    | SortClicked                                    // the sort button

  /** The state of the first render: nothing loaded, nothing pending. */
  function Init(): (s: State)
    ensures !s.loading && s.error == None && s.data == [] && s.statusData == map[]
    ensures s.sortOrder == Asc && s.filterText == ""
    ensures !Polling(s)
  {
    State([], map[], false, None, Asc, "")
  }

  /** The polling effect runs its body (an immediate fetch, then the
      interval) only while the list is non-empty. */
  predicate Polling(s: State)
  {
    |s.data| > 0
  }

  /** The end of `fetchData`: a new list replaces the old one and clears the
      statuses; a failure keeps both and records the message; loading ends. */
  function OnData(s: State, reply: Reply<seq<Item>>): Transition<State>
  {
    match Settle(reply, DataFailed)
    case Success(items) =>
      var next := s.(data := items, statusData := map[], loading := false);
      // `data` changed, so the effect re-runs: one fetch now if there is a list.
      Transition(next, if Polling(next) then [Get(StatusUrl)] else [])
    case Failure(m) =>
      Transition(s.(error := Some(m), loading := false), [])
  }

  function Step(s: State, e: Event): (t: Transition<State>)
    ensures e.LoadClicked? ==>
              && t.next.loading && t.next.error == None
              && t.next.data == s.data && t.next.statusData == s.statusData
              && t.requests == [Get(DataUrl(e.query))]
    ensures e.DataReplied? ==>
              && !t.next.loading
              && match Settle(e.dataReply, DataFailed)
                 case Success(items) =>
                   && t.next == s.(data := items, statusData := map[], loading := false)
                   && StatusFetches(t.requests) == (if |items| > 0 then 1 else 0)
                 case Failure(m) =>
                   && t.next == s.(error := Some(m), loading := false)
                   && t.requests == []
    ensures e.StatusReplied? ==>
              && t.next == s.(statusData := t.next.statusData)
              && t.requests == []
              && t.next.statusData == (if e.statusReply.Reply? && e.statusReply.ok then e.statusReply.body
                                       else s.statusData)
    ensures e.IntervalFired? ==> t.next == s && t.requests == (if Polling(s) then [Get(StatusUrl)] else [])
    ensures !e.FilterEdited? ==> t.next.filterText == s.filterText
    ensures !e.SortClicked? ==> t.next.sortOrder == s.sortOrder
    ensures e.FilterEdited? ==> t.next == s.(filterText := e.text) && t.requests == []
    ensures e.SortClicked? ==> t.next == s.(sortOrder := ToggleSort(s.sortOrder)) && t.requests == []
  {
    match e
    case LoadClicked(query) => Transition(s.(loading := true, error := None), [Get(DataUrl(query))])
    case DataReplied(reply) => OnData(s, reply)
    case StatusReplied(reply) => Transition(OnStatus(s, reply), [])
    case IntervalFired => Transition(s, if Polling(s) then [Get(StatusUrl)] else [])
    case FilterEdited(text) => Transition(s.(filterText := text), [])
    case SortClicked => Transition(s.(sortOrder := ToggleSort(s.sortOrder)), [])
  }

  /** What is on screen below the controls: the loading note, the error note
      (when the message is truthy) and the list, which is always there. */
  datatype Panel = Panel(loadingNote: bool, errorNote: Option<string>, rows: seq<ViewItem>)

  function Render(s: State): (p: Panel)
    ensures p.loadingNote == s.loading
    ensures p.errorNote.Some? <==> ErrorShown(s)
    ensures p.errorNote.Some? ==> p.errorNote == s.error
    ensures p.rows == Displayed(s)
  {
    Panel(s.loading, if ErrorShown(s) then s.error else None, Displayed(s))
  }

  // ---------------------------------------------------------------------------
  // Properties of loads
  // ---------------------------------------------------------------------------

  /** A complete load, click then reply: loading is over; a success shows the
      new list with no error and no status carried over from before; a
      failure shows its message and keeps the old list and statuses. */
  lemma LoadCompletes(s: State, query: string, reply: Reply<seq<Item>>)
    ensures var t := Run(Step, s, [LoadClicked(query), DataReplied(reply)]);
            && !t.next.loading
            && t.requests[0] == Get(DataUrl(query))
            && match Settle(reply, DataFailed)
               case Success(items) =>
                 && t.next.data == items && t.next.statusData == map[] && t.next.error == None
                 && (forall v :: v in Render(t.next).rows ==> v.status == Unknown)
               case Failure(m) =>
                 && t.next.data == s.data && t.next.statusData == s.statusData
                 && t.next.error == Some(m)
  {
    var s1 := Step(s, LoadClicked(query)).next;
    var s2 := Step(s1, DataReplied(reply)).next;
    assert [LoadClicked(query), DataReplied(reply)][1..] == [DataReplied(reply)];
    assert Run(Step, s1, [DataReplied(reply)]).next == s2;
    if Settle(reply, DataFailed).Success? {
      MergeWithoutStatuses(s2.data);
    }
  }

  /** No stale status survives a successful search: right after it, every
      shown item reads "unknown", even one whose id had a status before. */
  lemma NoStaleStatusAfterSearch(s: State, reply: Reply<seq<Item>>)
    requires Settle(reply, DataFailed).Success?
    ensures forall v :: v in Displayed(Step(s, DataReplied(reply)).next) ==> v.status == Unknown
  {
    MergeWithoutStatuses(Step(s, DataReplied(reply)).next.data);
  }

  /** The status map is cleared only at the moment the new list is stored: a
      status fetch sent for the old list and answered after the new list
      arrived refills the map, and the new item with the same id shows the
      old status. */
  lemma LateStatusReplyAfterSearch()
    ensures var s := Init().(data := [Item("1", "old")], statusData := map["1" := "offline"]);
            var t := Run(Step, s, [LoadClicked(ButtonQuery), IntervalFired,
                                   DataReplied(Reply(true, [Item("1", "new")])),
                                   StatusReplied(Reply(true, map["1" := "offline"]))]);
            && t.requests == [Get(DataUrl(ButtonQuery)), Get(StatusUrl), Get(StatusUrl)]
            && Displayed(t.next) == [ViewItem(Item("1", "new"), "offline")]
  {
    var s := Init().(data := [Item("1", "old")], statusData := map["1" := "offline"]);
    var es := [LoadClicked(ButtonQuery), IntervalFired,
               DataReplied(Reply(true, [Item("1", "new")])),
               StatusReplied(Reply(true, map["1" := "offline"]))];
    var s1 := Step(s, es[0]).next;
    var s2 := Step(s1, es[1]).next;
    var s3 := Step(s2, es[2]).next;
    var s4 := Step(s3, es[3]).next;
    assert es[1..][1..][1..][1..] == [];
    assert Run(Step, s3, es[1..][1..][1..]) == Transition(s4, []);
    assert Run(Step, s2, es[1..][1..]) == Transition(s4, [Get(StatusUrl)]);
    assert Run(Step, s1, es[1..]) == Transition(s4, [Get(StatusUrl), Get(StatusUrl)]);
    assert s4.data == [Item("1", "new")] && s4.statusData == map["1" := "offline"];
    var merged := Merge(s4.data, s4.statusData);
    assert merged == [ViewItem(Item("1", "new"), "offline")];
    EmptyFilterKeepsAll(merged);
    assert Sort(merged, Asc) == merged;
  }

  // ---------------------------------------------------------------------------
  // Properties of polling
  // ---------------------------------------------------------------------------

  /** The event brings in a new non-empty list. */
  predicate Refills(e: Event)
  {
    e.DataReplied? && match Settle(e.dataReply, DataFailed)
                      case Success(items) => |items| > 0
                      case Failure(_) => false
  }

  /** Once the list is empty, no status fetch is made, whatever the timer or
      the user does, until a load brings in a non-empty list. */
  lemma {:induction false} QuietWhileEmpty(s: State, events: seq<Event>)
    requires !Polling(s)
    requires forall i :: 0 <= i < |events| ==> !Refills(events[i])
    ensures StatusFetches(Run(Step, s, events).requests) == 0
    ensures !Polling(Run(Step, s, events).next)
    decreases |events|
  {
    if events != [] {
      var t := Step(s, events[0]);
      assert !Refills(events[0]);
      assert StatusFetches(t.requests) == 0;
      QuietWhileEmpty(t.next, events[1..]);
      assert multiset(t.requests + Run(Step, t.next, events[1..]).requests)
          == multiset(t.requests) + multiset(Run(Step, t.next, events[1..]).requests);
    }
  }

  /** A new non-empty list starts polling with one immediate fetch; an empty
      one leaves polling off. */
  lemma RefillStartsPolling(s: State, reply: Reply<seq<Item>>)
    requires Settle(reply, DataFailed).Success?
    ensures var t := Step(s, DataReplied(reply));
            && (Polling(t.next) <==> Refills(DataReplied(reply)))
            && (Refills(DataReplied(reply)) ==> t.requests == [Get(StatusUrl)])
            && (!Refills(DataReplied(reply)) ==> t.requests == [])
  {
  }

  /** The filter text and the sort order survive loads and polls: only the
      user's own edits change them. */
  lemma {:induction false} ViewSettingsPersist(s: State, events: seq<Event>)
    requires forall i :: 0 <= i < |events| ==> !events[i].FilterEdited? && !events[i].SortClicked?
    ensures Run(Step, s, events).next.filterText == s.filterText
    ensures Run(Step, s, events).next.sortOrder == s.sortOrder
    decreases |events|
  {
    if events != [] {
      assert !events[0].FilterEdited? && !events[0].SortClicked?;
      ViewSettingsPersist(Step(s, events[0]).next, events[1..]);
    }
  }
}
