/**
 * The users page: everyone except the signed-in user whose name or e-mail
 * contains the search text (ignoring case), refreshed on mount, by the
 * search button and by the debounced search box.
 *
 * The store's verdict on each select is the parameter `fails`; the id of
 * the signed-in user is the parameter `selfId`.
 */
module UserSearch {
  import opened Text

  datatype UserRecord = UserRecord(id: string, name: string, email: string)

  /** `name.ilike.%q%,email.ilike.%q%` */
  predicate UserMatches(u: UserRecord, query: string) {
    ContainsIgnoringCase(u.name, query) || ContainsIgnoringCase(u.email, query)
  }

  /** A row the select returns: it matches the query and is not the signed-in user. */
  predicate Listed(u: UserRecord, query: string, selfId: string) {
    UserMatches(u, query) && u.id != selfId
  }

  /** The rows the select returns, in table order. */
  function ListedUsers(table: seq<UserRecord>, query: string, selfId: string): (r: seq<UserRecord>)
    ensures |r| <= |table|
    ensures forall u :: u in r <==> u in table && Listed(u, query, selfId)
    ensures forall u :: multiset(r)[u] == if Listed(u, query, selfId) then multiset(table)[u] else 0
  {
    if table == [] then []
    else
      var rest := ListedUsers(table[1..], query, selfId);
      assert table == [table[0]] + table[1..];
      if Listed(table[0], query, selfId) then [table[0]] + rest else rest
  }

  /** The signed-in user never appears in their own list. */
  lemma SelfNeverListed(table: seq<UserRecord>, query: string, selfId: string)
    ensures forall u :: u in ListedUsers(table, query, selfId) ==> u.id != selfId
  {
  }

  /** An empty search lists every other user. */
  lemma EmptyQueryListsEveryoneElse(table: seq<UserRecord>, selfId: string)
    ensures forall u :: u in table ==> (u in ListedUsers(table, "", selfId) <==> u.id != selfId)
  {
    forall u | u in table
      ensures u in ListedUsers(table, "", selfId) <==> u.id != selfId
    {
      EmptyTermMatchesEverything(u.name);
    }
  }

  /** Searching with the exact text of a user's name finds that user (unless it is the signed-in user). */
  lemma FindsByOwnName(table: seq<UserRecord>, u: UserRecord, selfId: string)
    requires u in table && u.id != selfId
    ensures u in ListedUsers(table, u.name, selfId)
  {
    OccursIn(u.name);
    ExactOccurrenceMatches(u.name, u.name);
  }

  /** A string contains itself. */
  lemma OccursIn(s: string)
    ensures Contains(s, s)
  {
    assert OccursAt(s, s, 0);
    ContainsIffOccurs(s, s);
  }

  class UsersPage {
    var users: seq<UserRecord>
    var searchQuery: string
    var loading: bool
    /** Every value the loading flag has been set to, in order. */
    ghost var loadingTrace: seq<bool>

    constructor ()
      ensures users == [] && searchQuery == "" && loading && loadingTrace == [true]
    {
      users := [];
      searchQuery := "";
      loading := true;
      loadingTrace := [true];
    }

    /**
     * `fetchUsers(query)`: loading goes on, the select runs, its rows replace
     * the list unless it failed, and loading goes off whatever happened.
     */
    method FetchUsers(table: seq<UserRecord>, query: string, selfId: string, fails: bool)
      modifies this`users, this`loading, this`loadingTrace
      ensures fails ==> users == old(users)
      ensures !fails ==> users == ListedUsers(table, query, selfId)
      ensures !loading && loadingTrace == old(loadingTrace) + [true, false]
    {
      loading := true;
      loadingTrace := loadingTrace + [true];
      if !fails {
        users := ListedUsers(table, query, selfId);
      }
      loading := false;
      loadingTrace := loadingTrace + [false];
    }

    /** The mount effect fetches with the empty query. */
    method Mount(table: seq<UserRecord>, selfId: string, fails: bool)
      modifies this`users, this`loading, this`loadingTrace
      ensures !fails ==> users == ListedUsers(table, "", selfId)
      ensures !fails ==> forall u :: u in table ==> (u in users <==> u.id != selfId)
      ensures fails ==> users == old(users)
      ensures !loading && loadingTrace == old(loadingTrace) + [true, false]
    {
      FetchUsers(table, "", selfId, fails);
      EmptyQueryListsEveryoneElse(table, selfId);
    }

    /** Typing in the search box only records the text; the debounced fetch comes later. */
    method SearchChanged(text: string)
      modifies this`searchQuery
      ensures searchQuery == text
    {
      searchQuery := text;
    }

    /** The search button, and the debounced callback once typing pauses: fetch with the box's text. */
    method SearchFired(table: seq<UserRecord>, selfId: string, fails: bool)
      modifies this`users, this`loading, this`loadingTrace
      ensures !fails ==> users == ListedUsers(table, searchQuery, selfId)
      ensures !fails ==> forall u :: u in users <==> u in table && UserMatches(u, searchQuery) && u.id != selfId
      ensures fails ==> users == old(users)
      ensures !loading && loadingTrace == old(loadingTrace) + [true, false]
    {
      FetchUsers(table, searchQuery, selfId, fails);
    }
  }
}
