# Item/status dashboard, modelled in Dafny

This project models two React dashboard components. Both fetch a list of
items, poll a status endpoint for a map from item id to status string, merge
the two, and show the merged list filtered by a case-insensitive name
substring and sorted by name in the direction the user picks.

- `dashboard.jsx` loads the list once at mount and polls the status map unconditionally.
- `fetch_on_button_click.jsx` loads the list when a button is pressed, with a search query.
  It clears the status map with every new list, and it polls only while the list is non-empty.

The model is functional:

- `View` (view.dfy) holds the derived values both files compute identically:
  `combinedData` (`Merge`), `displayedData` (`Filter`, then a stable `Sort`, together `Derive`) and `toggleSort`.
- `Text` (text.dfy) holds `toLowerCase`, `includes` and `localeCompare`.
- `Component` (component.dfy) holds the shared state cells, the status fetch (`OnStatus`) and the displayed list.
- `Dashboard` (dashboard.dfy) and `SearchDashboard` (search_dashboard.dfy) are the two components.
  Each is a deterministic transition function `Step(state, event)`.
  It returns the next state and the GET requests the step hands to the network.
  Network results are inputs: a `Reply(ok, body)` or a `Rejected(message)`.
  `Net.Settle` turns a reply into success or failure, using the source's error messages.
- `Machine.Run` (machine.dfy) feeds a trace of events to a step function.
  The trace lemmas use it to state whole-run properties:
  - nothing but "Loading..." is rendered until the load settles;
  - polling stays quiet while the list is empty;
  - the view settings survive loads and polls.

Two behaviours of the code worth knowing:

- On a new search the status map is cleared in the same step as the new list is stored, when the load succeeds.
  It is not cleared when the search starts, so a failed search keeps the old statuses.
  Right after the new list is stored, every item reads "unknown".
- A status reply is applied whenever it arrives; the code has no guard against late replies, and neither does the model.
  A status fetch sent for the old list and answered after the new list arrived refills the cleared map.
  An item of the new list that shares an id with an old one then shows the old status (`SearchDashboard.LateStatusReplyAfterSearch`).

## Model

| member | source | states |
|---|---|---|
| Text.Includes | dashboard.jsx:84 | `includes` is true exactly when the needle occurs at some offset of the haystack; the empty needle always occurs |
| Text.Compare | dashboard.jsx:88 | the comparator is negative, zero or positive, and zero exactly when the two names are the same string |
| Text.CompareFlip | fetch_on_button_click.jsx:81-83 | swapping the operands negates the comparison, so the "desc" comparator is the mirror of the "asc" one |
| Text.CompareTransitive | dashboard.jsx:86-90 | "sorts no later than" is transitive, so the sort has a consistent comparator |
| Net.Settle | dashboard.jsx:21-28 | a reply that is not ok becomes the error "Failed to fetch data" (or "Failed to fetch status"); a rejection keeps its own message; only an ok reply yields the body |
| View.Merge | dashboard.jsx:71-76 | one merged item per fetched item, in order, carrying that item; the status is the map entry when it exists and is non-empty, otherwise "unknown" |
| View.MergeAppend | fetch_on_button_click.jsx:65-70 | merging is item by item: the merge of a concatenation is the concatenation of the merges, so nothing is dropped, duplicated or moved |
| View.MergeWithoutStatuses | fetch_on_button_click.jsx:68 | against an empty status map every item reads "unknown" |
| View.MatchIgnoresCase | dashboard.jsx:83-85 | upper-casing any one letter of the name or of the filter text, or lower-casing either first, does not change whether an item matches |
| View.Filter | dashboard.jsx:82-85 | an item is kept if and only if its lower-cased name contains the lower-cased filter text; each kept item appears as often as in the input |
| View.FilterAppend | fetch_on_button_click.jsx:76-79 | filtering a concatenation filters each part in place, so kept items keep their merge order |
| View.FilterKeepsMatching | dashboard.jsx:82-85 | a list whose items all match passes the filter unchanged |
| View.EmptyFilterKeepsAll | dashboard.jsx:83-85 | the empty filter text keeps every item, in merge order |
| View.Sort | dashboard.jsx:86-90 | the sorted list is a permutation of its input and is in order under the selected comparator |
| View.SortStable | dashboard.jsx:86-90 | the sort is stable: for every name, the items carrying it come out in the order they went in |
| View.SortOfSorted | fetch_on_button_click.jsx:80-84 | sorting a list that is already in order leaves it unchanged |
| View.Derive | dashboard.jsx:81-91 | the displayed list holds exactly the matching items, each as often as merged, and is in the selected order |
| View.DeriveStable | fetch_on_button_click.jsx:75-85 | in either direction, items with equal names are shown in merge order; names the filter rejects are not shown |
| View.DeriveIdempotent | dashboard.jsx:81-91 | filtering and sorting the displayed list again with the same text and order yields the same list |
| View.DeriveEmptyFilter | fetch_on_button_click.jsx:75-85 | with empty filter text the displayed list is the whole merged list, sorted |
| View.ToggleSort | dashboard.jsx:93-95 | the toggle always changes the order: "asc" becomes "desc" and "desc" becomes "asc" |
| View.ToggleTwice | fetch_on_button_click.jsx:87-89 | toggling twice restores the order |
| View.ToggleFlipsInOrder | dashboard.jsx:87-89 | under the toggled order, `a` may precede `b` exactly when `b` may precede `a` under the old one |
| View.ToggleReverses | dashboard.jsx:81-95 | when no two items share a name, toggling the order shows exactly the reverse of the displayed list |
| View.ExampleScenario | dashboard.jsx:71-91 | Bob (id "1", "online") and Alice (id "2", no entry) merge to online/unknown and are shown as Alice, Bob in ascending order |
| Component.OnStatus | dashboard.jsx:43-55 | a good status reply replaces the whole map; a failed one is only logged and changes nothing; nothing but the map ever changes |
| Dashboard.Mount | dashboard.jsx:5-62 | the first render is loading, with no error, no items, no statuses, ascending order and empty filter text; its effects send the list load and then the immediate status fetch |
| Dashboard.Step | dashboard.jsx:19-66 | when the load settles, loading ends and the list or the error is stored; status replies touch only the map; each interval firing issues a status fetch; the view settings change only on the user's edits |
| Dashboard.Render | dashboard.jsx:100-101 | the list is rendered exactly when not loading and no (non-empty) error is set; while loading the screen is "Loading..." |
| Dashboard.OtherEventsKeepLoad | dashboard.jsx:19-35 | events other than the load's reply never change the list, the loading flag or the error |
| Dashboard.LoadingUntilReply | dashboard.jsx:100 | from mount, until the load settles, the screen is "Loading..." whatever polls, edits or clicks happen |
| Dashboard.InitialLoadSettles | dashboard.jsx:20-31 | after the one load settles, loading is false; on success the list is the payload with no error; on failure the error is set, the list stays empty and the error screen shows |
| Dashboard.PollsOnEveryInterval | dashboard.jsx:58-62 | the number of status fetches in a run equals the number of interval firings: polling never depends on state |
| SearchDashboard.Init | fetch_on_button_click.jsx:4-10 | the first render is not loading, has no error, no items, no statuses, ascending order and empty filter text, so polling is off |
| SearchDashboard.Step | fetch_on_button_click.jsx:15-60 | a click sets loading and clears the error; success stores the list and empties the map; failure stores the message and keeps list and map; loading ends either way; each interval fires a status fetch if and only if the list is non-empty |
| SearchDashboard.Render | fetch_on_button_click.jsx:114-122 | the list is always rendered; the loading and error notes appear beside it, the error only when non-empty |
| SearchDashboard.LoadCompletes | fetch_on_button_click.jsx:15-31 | a click then a reply: loading is over; success shows the payload with no error and every status "unknown"; failure keeps the old list and statuses and records the message |
| SearchDashboard.LateStatusReplyAfterSearch | fetch_on_button_click.jsx:41-47 | a status reply for the old list that arrives after a new list was stored refills the cleared map, so a new item sharing an old id shows the old status |
| SearchDashboard.NoStaleStatusAfterSearch | fetch_on_button_click.jsx:24-25 | right after a successful search every displayed item reads "unknown", even one whose id had a status before |
| SearchDashboard.QuietWhileEmpty | fetch_on_button_click.jsx:36-37 | while the list is empty and no load brings a non-empty list, no status fetch is issued and the list stays empty |
| SearchDashboard.RefillStartsPolling | fetch_on_button_click.jsx:53-60 | a successful load activates polling exactly when the new list is non-empty, and then issues exactly one immediate status fetch |
| SearchDashboard.ViewSettingsPersist | fetch_on_button_click.jsx:9-10 | filter text and sort order survive every run of loads and polls; only the user's own edits change them |

## Left out

- HTTP and JSON: `fetch`, `res.ok` and `res.json()` are inputs, a `Reply(ok, body)` or a `Rejected(message)`.
  A failure inside `res.json()` is folded into `Rejected`.
  Only the GET requests a step issues are recorded.
- Timers: the 30-second cadence, `setInterval` and `clearInterval`.
  The timer is an `IntervalFired` event.
  In the on-demand component it issues a fetch only while polling is active; that condition is what cancelling the interval achieves.
- React runtime: hooks, `useMemo` caching, effect scheduling and batching.
  Derived values are pure functions of the current state.
  The updates one `await` continuation makes are applied as one step.
- Overlapping loads and replies that arrive after unmount.
  The code does not coordinate them, and neither does the model.
  `Dashboard.InitialLoadSettles` assumes the single load that the mount effect starts.
- Teardown: the interval's cleanup on unmount is not modelled, since the model has no unmount event.
- View.Sort: `localeCompare` is modelled as code-point lexicographic order, so only identical names tie.
  ICU collation can order some strings differently and can tie distinct strings.
- View.SortStable: stability is stated per equal name. Under ICU collation it would also cover distinct names that collate equal.
- Text.Includes: `toLowerCase` is modelled on the ASCII letters A to Z only. Unicode case mapping is not.
- View.Merge: the status map is assumed to have no inherited keys.
  `statusData[item.id]` is a JavaScript property read, so an id such as "constructor" or "toString" finds a member of `Object.prototype` (a truthy function) and "__proto__" finds the prototype object itself; the model's lookup sees only the map's own entries, so such ids read "unknown".
- Item fields other than `id` and `name` are not represented. The merge copies the item unchanged, so such fields would ride along.
- Item ids are modelled as strings, the form they take as property keys of the status map.
  A numeric JSON id is assumed to look up its decimal string.
- Status values are strings. A non-string JSON value and its truthiness are not modelled; only the empty string falls back to "unknown".
- Rendering: JSX markup, styles and `console.error` logging. Only the render guards and the rows' content are kept.
