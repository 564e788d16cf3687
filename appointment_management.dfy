/**
 * The state behind the appointments page and the handlers that change it:
 * the debounced search, the status select, the tab switch, the page buttons,
 * the fetch that refreshes the list and the accept/decline/cancel action.
 *
 * The appointment table is an object the page reads and updates; every call
 * into the store takes the store's verdict (`fails`) as a parameter, and the
 * clock is the `now` parameter of each fetch.
 */
module AppointmentManagement {
  import opened Wrappers
  import opened AppointmentQuery

  /** The values of the status select: "all" and the four statuses. */
  predicate IsStatusChoice(value: string) {
    value in {"all", "pending", "accept", "decline", "cancel"}
  }

  /** The filter a select value stands for: "all" means no filter. */
  function StatusFilterOf(value: string): (r: Option<Status>)
    requires IsStatusChoice(value)
    ensures r == None <==> value == "all"
  {
    match value
    case "pending" => Some(Pending)
    case "accept" => Some(Accept)
    case "decline" => Some(Decline)
    case "cancel" => Some(Cancel)
    case _ => None
  }

  /** What the store answers a select: an error, or data and a count, either of which may be null. */
  datatype FetchResponse =
    | FetchError
    | FetchData(data: Option<seq<Appointment>>, count: Option<nat>)

  /** The appointment table, as the page reads and updates it. */
  class AppointmentTable {
    var rows: seq<Appointment>

    constructor (rows: seq<Appointment>)
      ensures this.rows == rows
    {
      this.rows := rows;
    }

    /** `update({ status }).eq("id", id)`; `fails` is the store's verdict. */
    method UpdateStatus(id: string, status: Status, fails: bool) returns (ok: bool)
      modifies this
      ensures ok == !fails
      ensures rows == if ok then WithStatus(old(rows), id, status) else old(rows)
    {
      ok := !fails;
      if ok {
        rows := WithStatus(rows, id, status);
      }
    }
  }

  class AppointmentPage {
    const viewerId: string
    const itemsPerPage: nat
    var appointments: seq<Appointment>
    var searchTerm: string
    var activeTab: Tab
    var currentPage: int
    var totalCount: nat
    var statusFilter: Option<Status>
    var initialLoad: bool

    ghost predicate Valid()
      reads this
    {
      itemsPerPage >= 1 && currentPage >= 1
    }

    constructor (viewerId: string, itemsPerPage: nat)
      requires itemsPerPage >= 1
      ensures Valid()
      ensures this.viewerId == viewerId && this.itemsPerPage == itemsPerPage
      ensures appointments == [] && searchTerm == "" && activeTab == Upcoming && currentPage == 1
      ensures totalCount == 0 && statusFilter == None && initialLoad
    {
      this.viewerId := viewerId;
      this.itemsPerPage := itemsPerPage;
      appointments := [];
      searchTerm := "";
      activeTab := Upcoming;
      currentPage := 1;
      totalCount := 0;
      statusFilter := None;
      initialLoad := true;
    }

    /** The filters the next fetch sends. */
    function CurrentFilters(): Filters
      reads this
    {
      Filters(viewerId, searchTerm, activeTab, statusFilter)
    }

    function PageCount(): nat
      reads this
      requires Valid()
    {
      TotalPages(totalCount, itemsPerPage)
    }

    /** The page buttons are rendered only when there is more than one page. */
    predicate ShowsPagination()
      reads this
      requires Valid()
    {
      PageCount() > 1
    }

    predicate PrevDisabled()
      reads this
    {
      currentPage == 1 || initialLoad
    }

    predicate NextDisabled()
      reads this
      requires Valid()
    {
      currentPage == PageCount() || initialLoad
    }

    /** The page buttons appear exactly when the rows do not fit on one page. */
    lemma PaginationShownIffOverflow()
      requires Valid()
      ensures ShowsPagination() <==> totalCount > itemsPerPage
    {
    }

    /**
     * Once loaded, on a page within the count, a page button is enabled
     * exactly when clicking it moves to another page.
     */
    lemma EnabledPageButtonsMove()
      requires Valid() && currentPage <= PageCount()
      ensures !PrevDisabled() <==> !initialLoad && PrevPage(currentPage) != currentPage
      ensures !NextDisabled() <==> !initialLoad && NextPage(currentPage, PageCount()) != currentPage
    {
    }

    /** The debounced search callback fires with the final term. */
    method SearchFired(term: string)
      requires Valid()
      modifies this
      ensures Valid()
      ensures searchTerm == term && currentPage == 1
      ensures activeTab == old(activeTab) && statusFilter == old(statusFilter)
      ensures appointments == old(appointments) && totalCount == old(totalCount)
      ensures initialLoad == old(initialLoad)
    {
      searchTerm := term;
      currentPage := 1;
    }

    /** A value is picked in the status select. */
    method StatusChosen(value: string)
      requires Valid() && IsStatusChoice(value)
      modifies this
      ensures Valid()
      ensures statusFilter == StatusFilterOf(value) && currentPage == 1
      ensures value == "all" ==> statusFilter == None
      ensures searchTerm == old(searchTerm) && activeTab == old(activeTab)
      ensures appointments == old(appointments) && totalCount == old(totalCount)
      ensures initialLoad == old(initialLoad)
    {
      statusFilter := StatusFilterOf(value);
      currentPage := 1;
    }

    /** Another tab is selected. */
    method TabChosen(tab: Tab)
      requires Valid()
      modifies this
      ensures Valid()
      ensures activeTab == tab && currentPage == 1
      ensures searchTerm == old(searchTerm) && statusFilter == old(statusFilter)
      ensures appointments == old(appointments) && totalCount == old(totalCount)
      ensures initialLoad == old(initialLoad)
    {
      activeTab := tab;
      currentPage := 1;
    }

    /** The previous-page button (rendered only with more than one page). */
    method PrevClicked()
      requires Valid() && ShowsPagination()
      modifies this`currentPage
      ensures Valid()
      ensures currentPage == PrevPage(old(currentPage))
      ensures old(currentPage) <= PageCount() ==> 1 <= currentPage <= PageCount()
    {
      currentPage := if currentPage - 1 > 1 then currentPage - 1 else 1;
    }

    /** The next-page button (rendered only with more than one page). */
    method NextClicked()
      requires Valid() && ShowsPagination()
      modifies this`currentPage
      ensures Valid()
      ensures currentPage == NextPage(old(currentPage), PageCount())
      ensures old(currentPage) <= PageCount() ==> 1 <= currentPage <= PageCount()
    {
      var pages := PageCount();
      currentPage := if currentPage + 1 < pages then currentPage + 1 else pages;
    }

    /** The tail of `fetchAppointments`: what the store's answer does to the page. */
    method ApplyResponse(response: FetchResponse)
      modifies this`appointments, this`totalCount, this`initialLoad
      ensures response.FetchError? ==> appointments == old(appointments) && totalCount == old(totalCount)
      ensures response.FetchData? ==> appointments == response.data.GetOr([])
                                      && totalCount == response.count.GetOr(0)
      ensures !initialLoad
    {
      match response {
        case FetchError =>
        case FetchData(data, count) =>
          appointments := data.GetOr([]);
          totalCount := count.GetOr(0);
      }
      initialLoad := false;
    }

    /**
     * `fetchAppointments`: query the table with the current filters and page,
     * then apply the answer; `fails` is the store's verdict.
     */
    method FetchAppointments(table: AppointmentTable, now: Clock, fails: bool)
      requires Valid()
      modifies this`appointments, this`totalCount, this`initialLoad
      ensures Valid()
      ensures fails ==> appointments == old(appointments) && totalCount == old(totalCount)
      ensures !fails ==>
                var result := RunQuery(table.rows, CurrentFilters(), currentPage, itemsPerPage, now);
                appointments == result.rows && totalCount == result.count
      ensures !initialLoad
    {
      var response := if fails then FetchError
                      else
                        var result := RunQuery(table.rows, CurrentFilters(), currentPage, itemsPerPage, now);
                        FetchData(Some(result.rows), Some(result.count));
      ApplyResponse(response);
    }

    /**
     * `handleAppointmentAction`: write the new status of one row, and refetch
     * only when the write succeeded.
     */
    method HandleAction(table: AppointmentTable, id: string, action: Action, now: Clock,
                        updateFails: bool, fetchFails: bool)
      requires Valid()
      modifies this, table
      ensures Valid()
      ensures table.rows == if updateFails then old(table.rows) else WithStatus(old(table.rows), id, action)
      ensures updateFails ==> unchanged(this)
      ensures !updateFails && !fetchFails ==>
                var result := RunQuery(table.rows, CurrentFilters(), currentPage, itemsPerPage, now);
                appointments == result.rows && totalCount == result.count && !initialLoad
      ensures !updateFails && fetchFails ==>
                appointments == old(appointments) && totalCount == old(totalCount) && !initialLoad
      ensures CurrentFilters() == old(CurrentFilters()) && currentPage == old(currentPage)
    {
      var ok := table.UpdateStatus(id, action, updateFails);
      if ok {
        FetchAppointments(table, now, fetchFails);
      }
    }
  }
}
