/**
 * The query behind the appointments page: which rows of the appointment
 * table a viewer gets for a given search term, tab, status filter and page.
 *
 * The store is modelled as the sequence of rows of the table; the query is
 * the composition of the row predicate (participant, search, tab window,
 * status), `ORDER BY date` (ascending on the upcoming tab, descending on the
 * past tab) and the `range(from, to)` window.
 */
module AppointmentQuery {
  import opened Wrappers
  import opened Text

  datatype Status = Pending | Accept | Decline | Cancel

  /** The statuses a participant can set: everything but `pending`. */
  type Action = s: Status | s != Pending witness Accept

  /** One row of the appointment table; `date` is `yyyy-MM-dd`, `time` is `HH:MM:SS`. */
  datatype Appointment = Appointment(
    id: string,
    title: string,
    description: string,
    date: string,
    time: string,
    status: Status,
    audioMessage: string,
    userIds: seq<string>,
    createdBy: string)

  datatype Tab = Upcoming | Past

  /** The current instant as its ISO text splits at 'T': a date and a time of day. */
  datatype Clock = Clock(date: string, time: string)

  /** The page state that shapes the query (everything but the page number). */
  datatype Filters = Filters(viewer: string, searchTerm: string, tab: Tab, status: Option<Status>)

  // ---------------------------------------------------------------------------
  // The row predicate
  // ---------------------------------------------------------------------------

  /** `contains("user_ids", [viewer])` */
  predicate IsParticipant(a: Appointment, viewer: string) {
    viewer in a.userIds
  }

  /** No term, or the term occurs, ignoring case, in the title, the date or the time. */
  predicate MatchesSearch(a: Appointment, term: string) {
    term == []
    || ContainsIgnoringCase(a.title, term)
    || ContainsIgnoringCase(a.date, term)
    || ContainsIgnoringCase(a.time, term)
  }

  /** `date > today OR (date = today AND time >= now)` */
  predicate IsUpcoming(a: Appointment, now: Clock) {
    Below(now.date, a.date) || (a.date == now.date && !Below(a.time, now.time))
  }

  /** The past-tab filter as the query spells it: `date < today OR date = today OR time < now`. */
  predicate IsPastAsWritten(a: Appointment, now: Clock) {
    Below(a.date, now.date) || a.date == now.date || Below(a.time, now.time)
  }

  predicate InTab(a: Appointment, tab: Tab, now: Clock) {
    match tab
    case Upcoming => IsUpcoming(a, now)
    case Past => IsPastAsWritten(a, now)
  }

  predicate MatchesStatus(a: Appointment, status: Option<Status>) {
    status.None? || a.status == status.value
  }

  /** A row is selected iff all four filters of the query accept it. */
  predicate Selected(a: Appointment, f: Filters, now: Clock) {
    IsParticipant(a, f.viewer)
    && MatchesSearch(a, f.searchTerm)
    && InTab(a, f.tab, now)
    && MatchesStatus(a, f.status)
  }

  /** The selected rows, in table order. */
  function Matching(rows: seq<Appointment>, f: Filters, now: Clock): (r: seq<Appointment>)
    ensures forall a :: a in r ==> Selected(a, f, now)
    ensures forall a :: multiset(r)[a] == if Selected(a, f, now) then multiset(rows)[a] else 0
    decreases |rows|
  {
    if rows == [] then []
    else
      assert rows == [rows[0]] + rows[1..];
      (if Selected(rows[0], f, now) then [rows[0]] else []) + Matching(rows[1..], f, now)
  }

  // ---------------------------------------------------------------------------
  // The two tabs
  // ---------------------------------------------------------------------------

  /** Every row satisfies at least one of the two tab filters. */
  lemma TabsCoverEveryRow(a: Appointment, now: Clock)
    ensures IsUpcoming(a, now) || IsPastAsWritten(a, now)
  {
    BelowTrichotomy(a.date, now.date);
  }

  /** Whatever is not upcoming passes the past filter. */
  lemma NotUpcomingIsPast(a: Appointment, now: Clock)
    requires !IsUpcoming(a, now)
    ensures IsPastAsWritten(a, now)
  {
    BelowTrichotomy(a.date, now.date);
  }

  /**
   * The two tab filters are not complementary: a row passes both exactly when
   * it is dated today at or after the current time, or dated after today at a
   * time of day earlier than the current time.
   */
  lemma TabsOverlapExactly(a: Appointment, now: Clock)
    ensures IsUpcoming(a, now) && IsPastAsWritten(a, now)
        <==> (a.date == now.date && !Below(a.time, now.time))
             || (Below(now.date, a.date) && Below(a.time, now.time))
  {
    if Below(now.date, a.date) {
      BelowAsymmetric(now.date, a.date);
      BelowIrreflexive(a.date);
    }
    if a.date == now.date {
      BelowIrreflexive(a.date);
    }
  }

  /** A concrete row listed on both tabs: dated tomorrow, at a time of day already past. */
  lemma TomorrowMorningIsOnBothTabs()
    ensures var now := Clock("2024-05-01", "12:00:00");
            var a := Appointment("a1", "Checkup", "", "2024-05-02", "09:30:00", Pending, "", ["u1", "u2"], "u1");
            IsUpcoming(a, now) && IsPastAsWritten(a, now)
  {
    var now := Clock("2024-05-01", "12:00:00");
    assert Below(now.date, "2024-05-02") by {
      assert now.date[9] < "2024-05-02"[9];
      assert now.date[..9] == "2024-05-02"[..9];
      PrefixThenBelow(now.date, "2024-05-02", 9);
    }
    assert Below("09:30:00", now.time) by {
      assert "09:30:00"[0] < now.time[0];
    }
  }

  /** Two strings that agree up to index `k` and differ upward at `k` are ordered. */
  lemma {:induction false} PrefixThenBelow(a: string, b: string, k: nat)
    requires k < |a| && k < |b| && a[..k] == b[..k] && a[k] < b[k]
    ensures Below(a, b)
    decreases k
  {
    if k > 0 {
      assert a[0] == a[..k][0] == b[..k][0] == b[0];
      assert a[1..][..k - 1] == a[..k][1..] == b[..k][1..] == b[1..][..k - 1];
      PrefixThenBelow(a[1..], b[1..], k - 1);
    }
  }

  // ---------------------------------------------------------------------------
  // ORDER BY date
  // ---------------------------------------------------------------------------

  /** `a` may precede `b` under `ORDER BY date ASC` (or `DESC` when not ascending). */
  predicate InOrder(a: Appointment, b: Appointment, ascending: bool) {
    if ascending then !Below(b.date, a.date) else !Below(a.date, b.date)
  }

  predicate SortedByDate(s: seq<Appointment>, ascending: bool) {
    forall i, j :: 0 <= i < j < |s| ==> InOrder(s[i], s[j], ascending)
  }

  lemma InOrderTotal(a: Appointment, b: Appointment, ascending: bool)
    ensures InOrder(a, b, ascending) || InOrder(b, a, ascending)
  {
    if Below(a.date, b.date) {
      BelowAsymmetric(a.date, b.date);
    }
  }

  lemma InOrderTransitive(a: Appointment, b: Appointment, c: Appointment, ascending: bool)
    requires InOrder(a, b, ascending) && InOrder(b, c, ascending)
    ensures InOrder(a, c, ascending)
  {
    BelowTrichotomy(a.date, b.date);
    BelowTrichotomy(b.date, c.date);
    if ascending {
      if Below(c.date, a.date) {
        if Below(a.date, b.date) { BelowTransitive(c.date, a.date, b.date); }
      }
    } else {
      if Below(a.date, c.date) {
        if Below(b.date, a.date) { BelowTransitive(b.date, a.date, c.date); }
      }
    }
  }

  /** Insert `x` before the first element it may precede. */
  function Insert(x: Appointment, s: seq<Appointment>, ascending: bool): seq<Appointment>
    decreases |s|
  {
    if s == [] then [x]
    else if InOrder(x, s[0], ascending) then [x] + s
    else [s[0]] + Insert(x, s[1..], ascending)
  }

  lemma {:induction false} InsertPermutes(x: Appointment, s: seq<Appointment>, ascending: bool)
    ensures multiset(Insert(x, s, ascending)) == multiset(s) + multiset{x}
    decreases |s|
  {
    if s != [] && !InOrder(x, s[0], ascending) {
      InsertPermutes(x, s[1..], ascending);
      assert s == [s[0]] + s[1..];
    }
  }

  /** A row that may precede every row of a sorted sequence may be put in front of it. */
  lemma ConsSorted(y: Appointment, t: seq<Appointment>, ascending: bool)
    requires SortedByDate(t, ascending)
    requires forall k :: 0 <= k < |t| ==> InOrder(y, t[k], ascending)
    ensures SortedByDate([y] + t, ascending)
  {
    var r := [y] + t;
    forall i, j | 0 <= i < j < |r| ensures InOrder(r[i], r[j], ascending) {
      if i == 0 {
        assert r[j] == t[j - 1];
      } else {
        assert r[i] == t[i - 1] && r[j] == t[j - 1];
      }
    }
  }

  lemma {:induction false} InsertKeepsOrder(x: Appointment, s: seq<Appointment>, ascending: bool)
    requires SortedByDate(s, ascending)
    ensures SortedByDate(Insert(x, s, ascending), ascending)
    decreases |s|
  {
    if s == [] {
    } else if InOrder(x, s[0], ascending) {
      forall k | 0 <= k < |s| ensures InOrder(x, s[k], ascending) {
        if k > 0 { InOrderTransitive(x, s[0], s[k], ascending); }
      }
      ConsSorted(x, s, ascending);
    } else {
      var t := Insert(x, s[1..], ascending);
      InsertKeepsOrder(x, s[1..], ascending);
      InsertPermutes(x, s[1..], ascending);
      InOrderTotal(x, s[0], ascending);
      forall k | 0 <= k < |t| ensures InOrder(s[0], t[k], ascending) {
        var y := t[k];
        assert y in multiset(t);
        if y != x {
          assert y in multiset(s[1..]);
          var m :| 0 <= m < |s[1..]| && s[1..][m] == y;
          assert s[m + 1] == y;
        }
      }
      ConsSorted(s[0], t, ascending);
    }
  }

  /** The rows in the order `ORDER BY date` returns them (ties kept in insertion order). */
  function SortByDate(s: seq<Appointment>, ascending: bool): (r: seq<Appointment>)
    ensures SortedByDate(r, ascending)
    ensures multiset(r) == multiset(s)
    decreases |s|
  {
    if s == [] then []
    else
      var rest := SortByDate(s[1..], ascending);
      InsertKeepsOrder(s[0], rest, ascending);
      InsertPermutes(s[0], rest, ascending);
      assert s == [s[0]] + s[1..];
      Insert(s[0], rest, ascending)
  }

  // ---------------------------------------------------------------------------
  // Pages
  // ---------------------------------------------------------------------------

  /** First index of page `page` (1-based) with `n` rows per page. */
  function PageStart(page: int, n: nat): nat
    requires page >= 1
  {
    var before: nat := page - 1;
    before * n
  }

  /** Last index (inclusive) of page `page`. */
  function PageEnd(page: int, n: nat): int
    requires page >= 1
  {
    PageStart(page, n) + n - 1
  }

  /** `range(from, to)`: the rows at indices `from` to `to` inclusive that exist. */
  function Range<T>(s: seq<T>, from: nat, to: int): (r: seq<T>)
    ensures |r| <= if to < from then 0 else to - from + 1
    ensures |r| == if to + 1 <= from || |s| <= from then 0 else (if to + 1 < |s| then to + 1 else |s|) - from
    ensures forall k :: 0 <= k < |r| ==> from + k < |s| && r[k] == s[from + k]
    ensures forall i :: from <= i <= to && i < |s| ==> i - from < |r| && r[i - from] == s[i]
  {
    var lo := if from < |s| then from else |s|;
    var hi := if to + 1 < lo then lo else if to + 1 < |s| then to + 1 else |s|;
    s[lo..hi]
  }

  function PageOf<T>(s: seq<T>, page: int, n: nat): seq<T>
    requires page >= 1
  {
    Range(s, PageStart(page, n), PageEnd(page, n))
  }

  /** `Math.ceil(count / n)` */
  function TotalPages(count: nat, n: nat): nat
    requires n >= 1
  {
    (count + n - 1) / n
  }

  /** A page never holds more than `n` rows. */
  lemma PageHoldsAtMostN<T>(s: seq<T>, page: int, n: nat)
    requires page >= 1
    ensures |PageOf(s, page, n)| <= n
  {
  }

  /** Consecutive pages are adjacent windows: one ends just before the next begins. */
  lemma ConsecutivePagesAdjacent(page: int, n: nat)
    requires page >= 1
    ensures PageEnd(page, n) + 1 == PageStart(page + 1, n)
  {
  }

  /** Windows of distinct pages share no index. */
  lemma {:induction false} DistinctPagesDisjoint(p: int, q: int, n: nat)
    requires 1 <= p < q
    ensures PageEnd(p, n) < PageStart(q, n) || n == 0
  {
    if n > 0 {
      assert (q - 1) * n >= p * n by {
        assert q - 1 >= p;
        MulMonotone(p, q - 1, n);
      }
    }
  }

  lemma MulMonotone(a: int, b: int, n: nat)
    requires a <= b
    ensures a * n <= b * n
  {
  }

  /** Index `i` lies on page `i / n + 1`. */
  lemma RowIndexOnPage(i: nat, n: nat)
    requires n >= 1
    ensures PageStart(i / n + 1, n) <= i <= PageEnd(i / n + 1, n)
  {
  }

  /** `TotalPages` is the least number of pages of size `n` that hold `count` rows. */
  lemma {:induction false} TotalPagesIsCeiling(count: nat, n: nat)
    requires n >= 1
    ensures TotalPages(count, n) * n >= count
    ensures TotalPages(count, n) == 0 || (TotalPages(count, n) - 1) * n < count
    ensures TotalPages(count, n) == 0 <==> count == 0
  {
    var t := TotalPages(count, n);
    var q, r := (count + n - 1) / n, (count + n - 1) % n;
    assert count + n - 1 == q * n + r;
    assert t * n >= count;
    if t > 0 {
      assert (t - 1) * n == t * n - n;
    }
  }

  /** The pages 1 to `k`, concatenated. */
  function Pages<T>(s: seq<T>, n: nat, k: nat): seq<T>
  {
    if k == 0 then [] else Pages(s, n, k - 1) + PageOf(s, k, n)
  }

  /** Reading pages 1 to `k` in turn yields the first `k * n` rows, in order. */
  lemma {:induction false} PagesArePrefix<T>(s: seq<T>, n: nat, k: nat)
    ensures Pages(s, n, k) == s[..if k * n < |s| then k * n else |s|]
  {
    if k > 0 {
      PagesArePrefix(s, n, k - 1);
      assert (k - 1) * n == k * n - n;
      var lo := if (k - 1) * n < |s| then (k - 1) * n else |s|;
      var hi := if k * n < |s| then k * n else |s|;
      PageIsSlice(s, k, n);
      assert s[..lo] + s[lo..hi] == s[..hi];
    }
  }

  /** Page `k` is the slice from `(k - 1) * n` to `k * n`, cut at the end of the rows. */
  lemma PageIsSlice<T>(s: seq<T>, k: nat, n: nat)
    requires k >= 1
    ensures PageOf(s, k, n) == s[if (k - 1) * n < |s| then (k - 1) * n else |s|..if k * n < |s| then k * n else |s|]
  {
    var from, to := PageStart(k, n), PageEnd(k, n);
    assert from == (k - 1) * n && to + 1 == k * n;
  }

  /** Reading every page in turn yields every row exactly once, in order. */
  lemma PagesCoverAll<T>(s: seq<T>, n: nat)
    requires n >= 1
    ensures Pages(s, n, TotalPages(|s|, n)) == s
  {
    TotalPagesIsCeiling(|s|, n);
    PagesArePrefix(s, n, TotalPages(|s|, n));
  }

  // ---------------------------------------------------------------------------
  // The whole query
  // ---------------------------------------------------------------------------

  /** What the store returns: one page of rows and the exact count of matching rows. */
  datatype PageResult = PageResult(rows: seq<Appointment>, count: nat)

  function OrderedMatches(table: seq<Appointment>, f: Filters, now: Clock): seq<Appointment> {
    SortByDate(Matching(table, f, now), f.tab == Upcoming)
  }

  lemma RangeWithin<T>(s: seq<T>, from: nat, to: int)
    ensures forall a :: a in Range(s, from, to) ==> a in s
  {
    var r := Range(s, from, to);
    forall a | a in r ensures a in s {
      var k :| 0 <= k < |r| && r[k] == a;
      assert s[from + k] == a;
    }
  }

  lemma RangeOfSortedIsSorted(s: seq<Appointment>, from: nat, to: int, ascending: bool)
    requires SortedByDate(s, ascending)
    ensures SortedByDate(Range(s, from, to), ascending)
  {
    var r := Range(s, from, to);
    forall i, j | 0 <= i < j < |r| ensures InOrder(r[i], r[j], ascending) {
      assert r[i] == s[from + i] && r[j] == s[from + j];
    }
  }

  /** A row of the ordered matches is a selected row of the table. */
  lemma OrderedMatchIsSelectedRow(table: seq<Appointment>, f: Filters, now: Clock, a: Appointment)
    requires a in OrderedMatches(table, f, now)
    ensures a in table && Selected(a, f, now)
  {
    var m := Matching(table, f, now);
    assert multiset(OrderedMatches(table, f, now)) == multiset(m);
    assert a in multiset(m);
    assert multiset(table)[a] > 0;
  }

  lemma PageRowsAreMatches(table: seq<Appointment>, f: Filters, page: int, n: nat, now: Clock)
    requires page >= 1
    ensures forall a :: a in PageOf(OrderedMatches(table, f, now), page, n) ==> a in table && Selected(a, f, now)
  {
    var all := OrderedMatches(table, f, now);
    RangeWithin(all, PageStart(page, n), PageEnd(page, n));
    forall a | a in PageOf(all, page, n) ensures a in table && Selected(a, f, now) {
      OrderedMatchIsSelectedRow(table, f, now, a);
    }
  }

  /** The query `fetchAppointments` sends, evaluated against the table. */
  function RunQuery(table: seq<Appointment>, f: Filters, page: int, n: nat, now: Clock): (r: PageResult)
    requires page >= 1
    ensures |r.rows| <= n
    ensures forall a :: a in r.rows ==> a in table && Selected(a, f, now)
    ensures SortedByDate(r.rows, f.tab == Upcoming)
    ensures r.count == |Matching(table, f, now)|
  {
    var all := OrderedMatches(table, f, now);
    var rows := PageOf(all, page, n);
    PageRowsAreMatches(table, f, page, n, now);
    RangeOfSortedIsSorted(all, PageStart(page, n), PageEnd(page, n), f.tab == Upcoming);
    assert |all| == |multiset(all)| == |Matching(table, f, now)|;
    PageResult(rows, |all|)
  }

  /** Row `i` is on page `i / n + 1`, which is one of the `TotalPages` pages. */
  lemma RowOnItsPage<T>(s: seq<T>, i: nat, n: nat)
    requires i < |s| && n >= 1
    ensures 1 <= i / n + 1 <= TotalPages(|s|, n)
    ensures s[i] in PageOf(s, i / n + 1, n)
  {
    var p := i / n + 1;
    RowIndexOnPage(i, n);
    TotalPagesIsCeiling(|s|, n);
    var t := TotalPages(|s|, n);
    assert p <= t by {
      if p > t {
        MulMonotone(t, p - 1, n);
      }
    }
    var rows := PageOf(s, p, n);
    assert rows[i - PageStart(p, n)] == s[i];
  }

  /**
   * Every selected row of the table is returned on some page between 1 and
   * the page count, provided every page request sees the selected rows in
   * one and the same order: here `RunQuery` sorts them by `SortByDate` for
   * every page alike.
   */
  lemma EverySelectedRowIsOnAPage(table: seq<Appointment>, f: Filters, n: nat, now: Clock, a: Appointment)
    requires n >= 1
    requires a in table && Selected(a, f, now)
    ensures exists p :: 1 <= p <= TotalPages(RunQuery(table, f, 1, n, now).count, n)
                        && a in RunQuery(table, f, p, n, now).rows
  {
    var all := OrderedMatches(table, f, now);
    assert a in multiset(Matching(table, f, now));
    assert a in multiset(all);
    var i :| 0 <= i < |all| && all[i] == a;
    RowOnItsPage(all, i, n);
    var p := i / n + 1;
    assert a in RunQuery(table, f, p, n, now).rows;
  }

  /** With nothing matching, page 1 is empty and there is no page to show. */
  lemma NoMatchesNoPages(table: seq<Appointment>, f: Filters, n: nat, now: Clock)
    requires n >= 1
    requires forall a :: a in table ==> !Selected(a, f, now)
    ensures RunQuery(table, f, 1, n, now).rows == []
    ensures TotalPages(RunQuery(table, f, 1, n, now).count, n) == 0
  {
  }

  // ---------------------------------------------------------------------------
  // The status update
  // ---------------------------------------------------------------------------

  /** `UPDATE appointment SET status = s WHERE id = id` */
  function WithStatus(rows: seq<Appointment>, id: string, s: Status): seq<Appointment>
    decreases |rows|
  {
    if rows == [] then []
    else [if rows[0].id == id then rows[0].(status := s) else rows[0]] + WithStatus(rows[1..], id, s)
  }

  /** The update sets the status of the rows with that id and changes nothing else. */
  lemma {:induction false} WithStatusChangesOnlyThatRow(rows: seq<Appointment>, id: string, s: Status)
    ensures |WithStatus(rows, id, s)| == |rows|
    ensures forall i :: 0 <= i < |rows| ==>
              WithStatus(rows, id, s)[i] == if rows[i].id == id then rows[i].(status := s) else rows[i]
    decreases |rows|
  {
    if rows != [] {
      WithStatusChangesOnlyThatRow(rows[1..], id, s);
    }
  }

  // ---------------------------------------------------------------------------
  // Page navigation
  // ---------------------------------------------------------------------------

  /** The previous-page button: `max(page - 1, 1)`. */
  function PrevPage(page: int): int {
    if page - 1 > 1 then page - 1 else 1
  }

  /** The next-page button: `min(page + 1, totalPages)`. */
  function NextPage(page: int, totalPages: int): int {
    if page + 1 < totalPages then page + 1 else totalPages
  }

  /**
   * From a page in range both buttons keep the page in range; an enabled
   * button moves by exactly one, and a disabled one would not have moved.
   */
  lemma NavigationStaysInRange(page: int, totalPages: int)
    requires 1 <= page <= totalPages
    ensures 1 <= PrevPage(page) <= totalPages && 1 <= NextPage(page, totalPages) <= totalPages
    ensures page != 1 ==> PrevPage(page) == page - 1
    ensures page == 1 ==> PrevPage(page) == page
    ensures page != totalPages ==> NextPage(page, totalPages) == page + 1
    ensures page == totalPages ==> NextPage(page, totalPages) == page
  {
  }
}
