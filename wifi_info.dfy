/**
 * The WiFi page's `fetchWifiInfo`: both endpoints are fetched together, and the two replies
 * decide which of the page's state variables (networks, connected network, error message,
 * loading flag) change. The fetches are inputs: either both replied, or the pair was rejected.
 */
module WifiInfo {
  import opened Wrappers
  import opened Wifi

  /** A reply: its HTTP status and the JSON body, which is read only when the status is ok. */
  datatype Reply<T> = Reply(status: int, data: T)

  /** `Promise.all([fetch(networks), fetch(connected)])`: both replies, or the rejection, carrying
      the message when what was thrown is an Error. */
  datatype FetchOutcome =
    | Replied(networksRes: Reply<seq<WifiNetwork>>, connectedRes: Reply<ConnectedWifiInfo>)
    | Rejected(message: Option<string>)

  /** The component's state. */
  datatype ViewState = ViewState(
    networks: seq<WifiNetwork>,
    connectedInfo: Option<ConnectedWifiInfo>,
    error: Option<string>,
    isLoading: bool)

  const NetworksFetchFailure := "Failed to fetch WiFi networks"
  const ConnectedFetchFailure := "Failed to fetch connected WiFi information"
  const GenericFailure := "Failed to fetch WiFi information"

  /** The `useState` initial values. */
  function InitialViewState(): (st: ViewState)
    ensures st.networks == [] && st.connectedInfo.None? && st.error.None? && st.isLoading
  {
    ViewState([], None, None, true)
  }

  /** `Response.ok`: a status in the range 200-299. */
  predicate IsOk(status: int) {
    200 <= status <= 299
  }

  /** One run of `fetchWifiInfo` from state st. */
  method FetchWifiInfo(st: ViewState, outcome: FetchOutcome) returns (next: ViewState)
    ensures !next.isLoading
    ensures next.error.None? <==>
              outcome.Replied? && IsOk(outcome.networksRes.status) &&
              (IsOk(outcome.connectedRes.status) || outcome.connectedRes.status == 404)
    ensures next.networks != st.networks ==> outcome.Replied? && IsOk(outcome.networksRes.status)
    ensures next.connectedInfo != st.connectedInfo ==>
              outcome.Replied? && IsOk(outcome.networksRes.status) && IsOk(outcome.connectedRes.status)
    ensures outcome.Rejected? ==>
              next == st.(error := Some(if outcome.message.Some? then outcome.message.value else GenericFailure),
                          isLoading := false)
    ensures outcome.Replied? && !IsOk(outcome.networksRes.status) ==>
              next == st.(error := Some(NetworksFetchFailure), isLoading := false)
    ensures outcome.Replied? && IsOk(outcome.networksRes.status) && IsOk(outcome.connectedRes.status) ==>
              next == ViewState(outcome.networksRes.data, Some(outcome.connectedRes.data), None, false)
    ensures outcome.Replied? && IsOk(outcome.networksRes.status) && outcome.connectedRes.status == 404 ==>
              next == st.(networks := outcome.networksRes.data, error := None, isLoading := false)
    ensures outcome.Replied? && IsOk(outcome.networksRes.status) &&
            !IsOk(outcome.connectedRes.status) && outcome.connectedRes.status != 404 ==>
              next == st.(networks := outcome.networksRes.data, error := Some(ConnectedFetchFailure), isLoading := false)
  {
    next := st.(isLoading := true);
    next := next.(error := None);
    var thrown: Option<string> := None;
    match outcome {
      case Rejected(message) =>
        thrown := Some(if message.Some? then message.value else GenericFailure);
      case Replied(networksRes, connectedRes) =>
        if !IsOk(networksRes.status) {
          thrown := Some(NetworksFetchFailure);
        } else {
          next := next.(networks := networksRes.data);
          if IsOk(connectedRes.status) {
            next := next.(connectedInfo := Some(connectedRes.data));
          } else if connectedRes.status != 404 {
            thrown := Some(ConnectedFetchFailure);
          }
        }
    }
    if thrown.Some? {
      next := next.(error := thrown);
    }
    next := next.(isLoading := false);
  }
}
