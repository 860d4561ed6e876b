/** What the two dashboards have in common besides the view pipeline: the
    same state cells, the same status fetch, and the same derived list. */
module Component {
  import opened Wrappers
  import opened Net
  import opened View

  const DataFailed := "Failed to fetch data"
  const StatusFailed := "Failed to fetch status"

  /** The component's state cells. */
  datatype State = State(
    data: seq<Item>,
    statusData: StatusMap,
    loading: bool,
    error: Option<string>,
    sortOrder: SortOrder,
    filterText: string)

  /** `fetchStatus` settling: a good reply replaces the whole map, a failed
      one is only logged and changes nothing. */
  function OnStatus(s: State, reply: Reply<StatusMap>): (next: State)
    ensures next == s.(statusData := next.statusData)
    ensures reply.Reply? && reply.ok ==> next.statusData == reply.body
    ensures !(reply.Reply? && reply.ok) ==> next == s
  {
    match Settle(reply, StatusFailed)
    case Success(statuses) => s.(statusData := statuses)
    case Failure(_) => s
  }

  /** `if (error)` and `{error && ...}`: an empty message is falsy and shows nothing. */
  predicate ErrorShown(s: State)
  {
    s.error.Some? && s.error.value != ""
  }

  /** `displayedData` for the current state. */
  function Displayed(s: State): seq<ViewItem>
  {
    Derive(Merge(s.data, s.statusData), s.filterText, s.sortOrder)
  }
}
