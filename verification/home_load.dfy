/**
 * The catalog page's one-shot load.  The page keeps three pieces of state (the items, a
 * loading flag and an error), starts loading, and settles once when the single request
 * for the dataset completes; nothing retries.  `LoadStatus` is the three-state machine
 * those three pieces of state encode, and `SettleMatchesPage` shows the encoding is exact.
 */
module HomeLoad {
  import opened Options
  import opened Sorting
  import opened Trick
  import Home

  /** The message a non-success response is turned into. */
  const NotOkMessage := "Failed to load data"

  /** What reading the response body as JSON gave. */
  datatype Body = Parsed(items: seq<Item>) | Unparsable(message: string)

  /** How the request for the dataset ended: rejected, or answered with an ok flag and a body. */
  datatype FetchResult = Rejected(message: string) | Responded(ok: bool, body: Body)

  /** What the promise chain delivers: the items to its `then`, or an error message to its `catch`. */
  datatype Delivery = Data(items: seq<Item>) | Error(message: string)

  /** The fetch, `ok` check, `json()` chain, up to the handler that receives its outcome. */
  function Deliver(r: FetchResult): Delivery {
    match r
    case Rejected(m) => Error(m)
    case Responded(ok, body) =>
      if !ok then Error(NotOkMessage)
      else match body
        case Parsed(items) => Data(items)
        case Unparsable(m) => Error(m)
  }

  /** The page's state: items, loading flag, error, and the two view selections. */
  datatype PageState = PageState(
    tricks: seq<Item>,
    loading: bool,
    error: Option<string>,
    sortBy: SortOption,
    filterBy: FilterOption)

  /** No items, loading, no error; sorted by combined score, unfiltered. */
  const InitialPage := PageState([], true, None, Combined, All)

  /** The success handler and the error handler of the load effect. */
  function ApplyDelivery(p: PageState, d: Delivery): PageState {
    match d
    case Data(items) => p.(tricks := items, loading := false)
    case Error(m) => p.(error := Some(m), loading := false)
  }

  /** The load status as a three-state machine. */
  datatype LoadStatus = Loading | Ready(items: seq<Item>) | Failed(message: string)

  const InitialStatus := Loading

  /** The one transition: `Loading` settles on the request's outcome; settled states stay put. */
  function Settle(st: LoadStatus, r: FetchResult): (st': LoadStatus)
    ensures st != Loading ==> st' == st
    ensures st == Loading ==> st' != Loading
    ensures st == Loading ==> (st'.Ready? <==> r.Responded? && r.ok && r.body.Parsed?)
    ensures st == Loading && r.Responded? && !r.ok ==> st' == Failed(NotOkMessage)
    ensures st'.Ready? && st == Loading ==> st'.items == r.body.items
  {
    if st != Loading then st
    else match Deliver(r)
      case Data(items) => Ready(items)
      case Error(m) => Failed(m)
  }

  /** How the page's three pieces of state encode a load status, under selections `sortBy` and `filterBy`. */
  function PageOf(st: LoadStatus, sortBy: SortOption, filterBy: FilterOption): PageState {
    match st
    case Loading => PageState([], true, None, sortBy, filterBy)
    case Ready(items) => PageState(items, false, None, sortBy, filterBy)
    case Failed(m) => PageState([], false, Some(m), sortBy, filterBy)
  }

  /** The machine starts where the page starts and its one transition is the effect's handlers. */
  lemma SettleMatchesPage(r: FetchResult)
    ensures PageOf(InitialStatus, Combined, All) == InitialPage
    ensures PageOf(Settle(InitialStatus, r), Combined, All) == ApplyDelivery(InitialPage, Deliver(r))
  {
  }

  /** After settling, a second completion changes nothing: there is no retry. */
  lemma SettleOnce(r1: FetchResult, r2: FetchResult)
    ensures Settle(Settle(InitialStatus, r1), r2) == Settle(InitialStatus, r1)
  {
  }

  /** What the page shows. */
  datatype Screen = Spinner | ErrorMessage(message: string) | Grid(total: nat, shown: seq<Item>)

  /**
   * The page's render: a spinner while loading, the error when there is a non-empty one
   * (an empty string is falsy), the derived grid otherwise.  The derived list is computed
   * on every render, before the early returns, over whatever items are held.
   */
  function Render(p: PageState, collate: Home.Collation): (s: Screen)
    requires Consistent(collate)
    ensures p.loading <==> s == Spinner
    ensures s.ErrorMessage? <==> !p.loading && p.error.Some? && p.error.value != ""
    ensures s.ErrorMessage? ==> s.message == p.error.value
    ensures s.Grid? ==> s.total == |p.tricks| && s.shown == Home.Derive(p.tricks, p.filterBy, p.sortBy, collate)
  {
    var shown := Home.Derive(p.tricks, p.filterBy, p.sortBy, collate);
    if p.loading then Spinner
    else if p.error.Some? && p.error.value != "" then ErrorMessage(p.error.value)
    else Grid(|p.tricks|, shown)
  }

  /** Each load status's screen. */
  lemma RenderStatus(st: LoadStatus, sortBy: SortOption, filterBy: FilterOption, collate: Home.Collation)
    requires Consistent(collate)
    ensures var s := Render(PageOf(st, sortBy, filterBy), collate);
      && (st == Loading ==> s == Spinner)
      && (st.Ready? ==> s == Grid(|st.items|, Home.Derive(st.items, filterBy, sortBy, collate)))
      && (st.Failed? && st.message != "" ==> s == ErrorMessage(st.message))
      && (st.Failed? && st.message == "" ==> s == Grid(0, []))
  {
  }

  /** A response that is not ok always ends on the fixed message, whatever its body. */
  lemma NotOkFails(body: Body, sortBy: SortOption, filterBy: FilterOption, collate: Home.Collation)
    requires Consistent(collate)
    ensures Render(PageOf(Settle(InitialStatus, Responded(false, body)), sortBy, filterBy), collate)
         == ErrorMessage(NotOkMessage)
  {
  }
}
