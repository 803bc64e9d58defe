/** The audit-log viewer's client-side state: the filter record sent with every
    fetch, the page count, the Prev / numbered / Next page controls, the
    action badge table and the single open details row. */
module AuditLogViewer {
  import opened Common
  import opened JsString

  const DefaultLimit := 20

  /** The `filters` state. Dates are instants chosen in the date pickers,
      `None` while unset. */
  datatype Filters = Filters(startDate: Option<int>, endDate: Option<int>, action: string,
                             username: string, status: string, page: int, limit: int)

  /** The filters as the viewer opens: no dates, empty text, page 1 of 20 rows. */
  const InitialFilters := Filters(None, None, "", "", "", 1, DefaultLimit)

  /** A log row, with the fields the client-side rules look at. */
  datatype LogEntry = LogEntry(id: int, action: string, status: string)

  /** What `getAuditLogs` answers: a page of rows and the total row count. */
  datatype LogsReply = Logs(entries: seq<LogEntry>, total: nat) | LogsFailed

  // ---------------------------------------------------------------------------
  // page count

  /** `Math.ceil(total / limit)`: the least page count whose pages hold
      `total` rows. */
  function TotalPages(total: nat, limit: nat): (r: nat)
    requires limit > 0
    ensures r * limit >= total
    ensures r > 0 ==> (r - 1) * limit < total
  {
    var q := (total + limit - 1) / limit;
    var m := (total + limit - 1) % limit;
    assert total + limit - 1 == q * limit + m && 0 <= m < limit;
    assert (q - 1) * limit == q * limit - limit;
    q
  }

  /** No smaller page count holds all rows. */
  lemma TotalPagesIsLeast(total: nat, limit: nat, n: nat)
    requires limit > 0 && n * limit >= total
    ensures TotalPages(total, limit) <= n
  {
    var r := TotalPages(total, limit);
    if n < r {
      MulMonotone(n, r - 1, limit);
    }
  }

  lemma MulMonotone(a: nat, b: nat, k: nat)
    requires a <= b
    ensures a * k <= b * k
  {
  }

  /** There is more than one page, and the pagination is rendered, exactly
      when the rows do not fit on one page. */
  lemma MorePagesThanOne(total: nat, limit: nat)
    requires limit > 0
    ensures TotalPages(total, limit) > 1 <==> total > limit
  {
    var r := TotalPages(total, limit);
    if r > 1 {
      MulMonotone(1, r - 1, limit);
    } else if total > limit {
      MulMonotone(r, 1, limit);
    }
  }

  // ---------------------------------------------------------------------------
  // badges

  /** The action types offered by the filter and coloured by the table. */
  const KnownActions := ["LOGIN", "LOGOUT", "CREATE_REQUEST", "APPROVE_REQUEST", "DENY_REQUEST",
                         "WHITELIST_PORT", "BLACKLIST_PORT", "CREATE_USER", "UPDATE_USER"]

  /** `getActionBadge`: the table's colour for an action, `light` for any
      action not in it. */
  function ActionBadge(action: string): (v: Variant)
    ensures v == Light <==> action !in KnownActions
    ensures action == "LOGIN" ==> v == Info
    ensures action == "LOGOUT" ==> v == Secondary
    ensures action == "CREATE_REQUEST" ==> v == Primary
    ensures action in {"APPROVE_REQUEST", "WHITELIST_PORT", "CREATE_USER"} ==> v == Success
    ensures action in {"DENY_REQUEST", "BLACKLIST_PORT"} ==> v == Danger
    ensures action == "UPDATE_USER" ==> v == Warning
  {
    match action
    case "LOGIN" => Info
    case "LOGOUT" => Secondary
    case "CREATE_REQUEST" => Primary
    case "APPROVE_REQUEST" => Success
    case "DENY_REQUEST" => Danger
    case "WHITELIST_PORT" => Success
    case "BLACKLIST_PORT" => Danger
    case "CREATE_USER" => Success
    case "UPDATE_USER" => Warning
    case _ => Light
  }

  /** Matching is exact: the lower-case spelling of any action in the table
      is not in it and gets `light`. */
  lemma ActionBadgeIsCaseSensitive(action: string)
    requires action in KnownActions
    ensures ActionBadge(Lower(action)) == Light
  {
    KnownActionStartsUpper(action);
    var l := Lower(action);
    assert l[0] == LowerChar(action[0]);
    if l in KnownActions {
      KnownActionStartsUpper(l);
    }
  }

  /** Every action in the table starts with an upper-case letter. */
  lemma KnownActionStartsUpper(action: string)
    requires action in KnownActions
    ensures action != [] && 'A' <= action[0] <= 'Z'
  {
  }

  // ---------------------------------------------------------------------------
  // details row

  /** The "View" button of row `id`: it closes that row if it is the open one
      and otherwise opens it in place of whichever row was open. */
  function ToggleDetails(open: Option<int>, id: int): (r: Option<int>)
    ensures r == Some(id) <==> open != Some(id)
    ensures r.None? <==> open == Some(id)
  {
    if open == Some(id) then None else Some(id)
  }

  /** The details row shows under the log whose id is open, so with distinct
      log ids at most one row shows details, and after a click on row `a`
      row `b` shows them exactly when `b` is `a` and `a` was not already open. */
  lemma DetailsUnderOneRow(ids: seq<int>, open: Option<int>, a: int, b: int)
    requires forall i, j :: 0 <= i < j < |ids| ==> ids[i] != ids[j]
    requires 0 <= a < |ids| && 0 <= b < |ids|
    ensures open == Some(ids[a]) && open == Some(ids[b]) ==> a == b
    ensures ToggleDetails(open, ids[a]) == Some(ids[b]) <==> a == b && open != Some(ids[a])
  {
    if a != b {
      if a < b { assert ids[a] != ids[b]; } else { assert ids[b] != ids[a]; }
    }
  }

  // ---------------------------------------------------------------------------
  // pagination

  /** One numbered page control. */
  datatype PageItem = PageItem(number: int, active: bool)

  /** `[...Array(totalPages)].map((_, i) => ...)`: items 1..totalPages, the one
      equal to the current page active. */
  function PageItems(totalPages: nat, page: int): (r: seq<PageItem>)
    ensures |r| == totalPages
    ensures forall i :: 0 <= i < |r| ==> r[i].number == i + 1 && (r[i].active <==> i + 1 == page)
  {
    seq(totalPages, i => PageItem(i + 1, i + 1 == page))
  }

  /** The number of active items in a row of page controls. */
  function ActiveCount(items: seq<PageItem>): nat {
    if items == [] then 0 else (if items[0].active then 1 else 0) + ActiveCount(items[1..])
  }

  /** Exactly one item is active when the page is within 1..totalPages, and
      none otherwise. */
  lemma OneActiveItem(totalPages: nat, page: int)
    ensures ActiveCount(PageItems(totalPages, page)) == if 1 <= page <= totalPages then 1 else 0
  {
    ActiveCountOf(PageItems(totalPages, page), page - 1);
  }

  /** Counting the active items by their positions. */
  lemma {:induction false} ActiveCountOf(items: seq<PageItem>, k: int)
    requires forall i :: 0 <= i < |items| ==> (items[i].active <==> i == k)
    ensures ActiveCount(items) == if 0 <= k < |items| then 1 else 0
  {
    if items != [] {
      ActiveCountOf(items[1..], k - 1);
    }
  }

  /** A change made in one of the filter inputs. */
  datatype FilterEdit =
    | SetStartDate(date: Option<int>)
    | SetEndDate(date: Option<int>)
    | SetAction(action: string)
    | SetUsername(username: string)
    | SetStatus(status: string)

  /** `setFilters({ ...filters, field: value })` for one input: that field
      changes and the page and limit do not, so no fetch is triggered. */
  function ApplyEdit(f: Filters, e: FilterEdit): (r: Filters)
    ensures r.page == f.page && r.limit == f.limit
    ensures e.SetStartDate? ==> r == f.(startDate := e.date)
    ensures e.SetEndDate? ==> r == f.(endDate := e.date)
    ensures e.SetAction? ==> r == f.(action := e.action)
    ensures e.SetUsername? ==> r == f.(username := e.username)
    ensures e.SetStatus? ==> r == f.(status := e.status)
  {
    match e
    case SetStartDate(d) => f.(startDate := d)
    case SetEndDate(d) => f.(endDate := d)
    case SetAction(a) => f.(action := a)
    case SetUsername(u) => f.(username := u)
    case SetStatus(s) => f.(status := s)
  }

  /** The effect on `[filters.page, filters.limit]` runs `fetchAuditLogs`
      again exactly when one of the two changed. */
  predicate FetchTriggered(before: Filters, after: Filters) {
    before.page != after.page || before.limit != after.limit
  }

  /** The viewer's state. The limit never changes from 20 and the page never
      drops below 1. */
  class AuditLogView {
    var logs: seq<LogEntry>
    var loading: bool
    var filters: Filters
    var totalPages: nat
    var showDetails: Option<int>

    ghost predicate Valid()
      reads this`filters
    {
      filters.limit == DefaultLimit && filters.page >= 1
    }

    /** The page lies among the numbered items. */
    predicate PageInRange()
      reads this`filters, this`totalPages
    {
      1 <= filters.page <= totalPages
    }

    /** The controls are rendered only once the logs are loaded and there is
        more than one page; while loading, the spinner replaces the table and
        the controls together. */
    predicate PaginationShown()
      reads this`loading, this`totalPages
    {
      !loading && totalPages > 1
    }

    predicate PrevDisabled()
      reads this`filters
    {
      filters.page == 1
    }

    predicate NextDisabled()
      reads this`filters, this`totalPages
    {
      filters.page == totalPages
    }

    constructor ()
      ensures Valid()
      ensures filters == InitialFilters && totalPages == 1 && showDetails.None?
      ensures logs == [] && loading
    {
      logs, loading := [], true;
      filters, totalPages, showDetails := InitialFilters, 1, None;
    }

    /** `fetchAuditLogs` starting, from the effect or from `handleFilter`: the
        spinner is shown and with it the controls are hidden. */
    method BeginFetch()
      requires Valid()
      modifies this`loading
      ensures Valid()
      ensures loading && !PaginationShown()
    {
      loading := true;
    }

    /** `fetchAuditLogs` completing: the rows and the page count from the
        total, or, on failure, nothing but the spinner changes. */
    method ReceiveLogs(reply: LogsReply)
      requires Valid()
      modifies this`logs, this`totalPages, this`loading
      ensures Valid()
      ensures reply.Logs? ==> logs == reply.entries && totalPages == TotalPages(reply.total, DefaultLimit)
      ensures reply.Logs? ==> (PaginationShown() <==> reply.total > DefaultLimit)
      ensures reply.LogsFailed? ==> logs == old(logs) && totalPages == old(totalPages)
      ensures !loading
    {
      if reply.Logs? {
        logs := reply.entries;
        totalPages := TotalPages(reply.total, filters.limit);
        MorePagesThanOne(reply.total, filters.limit);
      }
      loading := false;
    }

    /** One filter input changes. Page and limit stay, so the logs are not
        fetched again until the Filter button. */
    method Edit(e: FilterEdit) returns (refetch: bool)
      requires Valid()
      modifies this`filters
      ensures Valid()
      ensures filters == ApplyEdit(old(filters), e)
      ensures refetch == FetchTriggered(old(filters), filters) && !refetch
    {
      filters := ApplyEdit(filters, e);
      refetch := false;
    }

    /** `handleFilter`: back to page 1, every other filter kept. The fetch it
        starts at once still reads the filters from before the update
        (`immediate`); the effect fetches again when the page was not 1. */
    method HandleFilter() returns (immediate: Filters, refetch: bool)
      requires Valid()
      modifies this`filters
      ensures Valid()
      ensures filters == old(filters).(page := 1)
      ensures immediate == old(filters)
      ensures refetch == FetchTriggered(old(filters), filters)
      ensures refetch <==> old(filters.page) != 1
    {
      immediate := filters;
      filters := filters.(page := 1);
      refetch := immediate.page != 1;
    }

    /** The Prev control: one page back, unless it is disabled on page 1. A
        page change fetches the logs again. */
    method ClickPrev() returns (refetch: bool)
      requires Valid() && PaginationShown()
      modifies this`filters
      ensures Valid()
      ensures old(PrevDisabled()) ==> filters == old(filters)
      ensures !old(PrevDisabled()) ==> filters == old(filters).(page := old(filters.page) - 1)
      ensures old(PageInRange()) ==> PageInRange()
      ensures refetch == FetchTriggered(old(filters), filters)
      ensures refetch <==> !old(PrevDisabled())
    {
      refetch := !PrevDisabled();
      if refetch {
        filters := filters.(page := filters.page - 1);
      }
    }

    /** The Next control: one page on, unless it is disabled on the last page.
        A page change fetches the logs again. */
    method ClickNext() returns (refetch: bool)
      requires Valid() && PaginationShown()
      modifies this`filters
      ensures Valid()
      ensures old(NextDisabled()) ==> filters == old(filters)
      ensures !old(NextDisabled()) ==> filters == old(filters).(page := old(filters.page) + 1)
      ensures old(PageInRange()) ==> PageInRange()
      ensures refetch == FetchTriggered(old(filters), filters)
      ensures refetch <==> !old(NextDisabled())
    {
      refetch := !NextDisabled();
      if refetch {
        filters := filters.(page := filters.page + 1);
      }
    }

    /** The numbered control `n`, one of 1..totalPages. Clicking the current
        page changes nothing and fetches nothing. */
    method ClickItem(n: int) returns (refetch: bool)
      requires Valid() && PaginationShown() && 1 <= n <= totalPages
      modifies this`filters
      ensures Valid() && PageInRange()
      ensures filters == old(filters).(page := n)
      ensures refetch == FetchTriggered(old(filters), filters)
      ensures refetch <==> n != old(filters.page)
    {
      refetch := n != filters.page;
      filters := filters.(page := n);
    }

    /** The "View" button of the row with `id`. */
    method ToggleRow(id: int)
      requires Valid()
      modifies this`showDetails
      ensures Valid()
      ensures showDetails == ToggleDetails(old(showDetails), id)
    {
      showDetails := ToggleDetails(showDetails, id);
    }
  }
}
