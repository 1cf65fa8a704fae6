/**
 * The profit history page: all distributions ordered by declared date, most recent
 * first, cut into pages of `pageSize` records, together with the total count and the
 * page parameters as the request gave them (or their defaults).
 *
 * The query values are the numbers the handler gets from `Number(...)`; a value that
 * is not a number is not part of this model. The store refuses a negative `skip`,
 * which the handler reports as a 500; a negative `take` reads the ordering
 * backwards from the end, returning the records in the original order.
 */
module History {
  import opened Wrappers
  import opened Seqs
  import opened Records

  const DefaultPage := 1
  const DefaultPageSize := 20

  datatype HistoryQuery = HistoryQuery(page: Option<int>, pageSize: Option<int>)

  datatype HistoryPage = HistoryPage(total: nat, page: int, pageSize: int, records: seq<Distribution>)

  /** Declared dates never increase along `s`. */
  ghost predicate DateDescending(s: seq<Distribution>) {
    forall i, j :: 0 <= i < j < |s| ==> s[i].declaredDate >= s[j].declaredDate
  }

  /** `d` placed before the first record of `s` whose date is not later than its own. */
  function Insert(d: Distribution, s: seq<Distribution>): (r: seq<Distribution>)
    ensures |r| == |s| + 1
  {
    if |s| == 0 then [d]
    else if d.declaredDate >= s[0].declaredDate then [d] + s
    else [s[0]] + Insert(d, s[1..])
  }

  /**
   * The `orderBy: declaredDate desc` ordering. Records with the same date keep their
   * insertion order; the store promises no particular order for them.
   */
  function ByDateDescending(s: seq<Distribution>): (r: seq<Distribution>)
    ensures |r| == |s|
  {
    if |s| == 0 then [] else Insert(s[0], ByDateDescending(s[1..]))
  }

  /** A record at least as late as the head of a date-ordered run can lead it. */
  lemma ConsKeepsOrder(x: Distribution, t: seq<Distribution>)
    requires DateDescending(t)
    requires |t| > 0 ==> x.declaredDate >= t[0].declaredDate
    ensures DateDescending([x] + t)
  {
    var r := [x] + t;
    forall i, j | 0 <= i < j < |r| ensures r[i].declaredDate >= r[j].declaredDate {
      assert r[j] == t[j - 1];
      if i == 0 {
        assert t[0].declaredDate >= t[j - 1].declaredDate;
      } else {
        assert r[i] == t[i - 1];
      }
    }
  }

  lemma {:induction false} InsertKeepsOrder(d: Distribution, s: seq<Distribution>)
    requires DateDescending(s)
    ensures DateDescending(Insert(d, s))
    ensures |s| > 0 ==> Insert(d, s)[0] == d || Insert(d, s)[0] == s[0]
    decreases |s|
  {
    if |s| == 0 {
    } else if d.declaredDate >= s[0].declaredDate {
      ConsKeepsOrder(d, s);
    } else {
      var u := s[1..];
      assert DateDescending(u) by {
        forall i, j | 0 <= i < j < |u| ensures u[i].declaredDate >= u[j].declaredDate {
          assert u[i] == s[i + 1] && u[j] == s[j + 1];
        }
      }
      InsertKeepsOrder(d, u);
      var t := Insert(d, u);
      if |u| > 0 {
        assert u[0] == s[1];
      }
      ConsKeepsOrder(s[0], t);
    }
  }

  lemma {:induction false} InsertPermutes(d: Distribution, s: seq<Distribution>)
    ensures multiset(Insert(d, s)) == multiset{d} + multiset(s)
    decreases |s|
  {
    if |s| > 0 && d.declaredDate < s[0].declaredDate {
      InsertPermutes(d, s[1..]);
      assert s == [s[0]] + s[1..];
    }
  }

  /** The ordering is sorted by date, latest first, and loses or adds no record. */
  lemma {:induction false} ByDateDescendingSorts(s: seq<Distribution>)
    ensures DateDescending(ByDateDescending(s))
    ensures multiset(ByDateDescending(s)) == multiset(s)
  {
    if |s| > 0 {
      ByDateDescendingSorts(s[1..]);
      InsertKeepsOrder(s[0], ByDateDescending(s[1..]));
      InsertPermutes(s[0], ByDateDescending(s[1..]));
      assert s == [s[0]] + s[1..];
    }
  }

  /**
   * The records the store answers for `skip` and `take` over the ordered table: an
   * error for a negative `skip`, the next `take` records after `skip` for a
   * non-negative `take`, and for a negative one the `-take` records that end `skip`
   * records before the end.
   */
  function Window(s: seq<Distribution>, skip: int, take: int): (r: Result<seq<Distribution>, Failure>)
    ensures r.Err? <==> skip < 0
    ensures r.Err? ==> r.error == ServerError
    ensures r.Ok? && take >= 0 ==>
              && |r.value| == (if skip >= |s| then 0 else if take < |s| - skip then take else |s| - skip)
              && forall k :: 0 <= k < |r.value| ==> r.value[k] == s[skip + k]
    ensures r.Ok? && take < 0 ==>
              var stop := if skip >= |s| then 0 else |s| - skip;
              && |r.value| == (if -take < stop then -take else stop)
              && forall k :: 0 <= k < |r.value| ==> r.value[k] == s[stop - |r.value| + k]
  {
    if skip < 0 then Err(ServerError)
    else if take >= 0 then Ok(Page(s, skip, take))
    else
      var stop := if skip >= |s| then 0 else |s| - skip;
      var start := if -take < stop then stop + take else 0;
      Ok(s[start..stop])
  }

  /**
   * `GET /admin/profit/history`: page 1 and 20 records a page unless the query says
   * otherwise, `skip = (page - 1) * pageSize`, `take = pageSize`. Nothing is written.
   */
  function ProfitHistory(l: Ledger, q: HistoryQuery): (r: Result<HistoryPage, Failure>)
    ensures var page := q.page.GetOr(DefaultPage);
      var size := q.pageSize.GetOr(DefaultPageSize);
      && (r.Ok? <==> (page - 1) * size >= 0)
      && (r.Err? ==> r.error == ServerError)
      && (r.Ok? ==>
            && r.value.total == |l.distributions|
            && r.value.page == page
            && r.value.pageSize == size
            && Window(ByDateDescending(l.distributions), (page - 1) * size, size) == Ok(r.value.records))
  {
    var page := q.page.GetOr(DefaultPage);
    var size := q.pageSize.GetOr(DefaultPageSize);
    match Window(ByDateDescending(l.distributions), (page - 1) * size, size)
    case Err(e) => Err(e)
    case Ok(records) => Ok(HistoryPage(|l.distributions|, page, size, records))
  }

  /** Without parameters the page is the first 20 records, latest first. */
  lemma DefaultQueryIsFirstPage(l: Ledger)
    ensures var r := ProfitHistory(l, HistoryQuery(None, None));
      && r.Ok?
      && r.value.page == 1 && r.value.pageSize == 20
      && r.value.records == Page(ByDateDescending(l.distributions), 0, 20)
  {
  }

  /** A contiguous run of a date-ordered table is date-ordered and holds only rows of the table. */
  lemma RunKeepsOrder(s: seq<Distribution>, rs: seq<Distribution>, base: nat)
    requires DateDescending(s)
    requires base + |rs| <= |s|
    requires forall k :: 0 <= k < |rs| ==> rs[k] == s[base + k]
    ensures DateDescending(rs)
    ensures forall d :: d in rs ==> d in s
  {
    forall i, j | 0 <= i < j < |rs| ensures rs[i].declaredDate >= rs[j].declaredDate {
      assert rs[i] == s[base + i] && rs[j] == s[base + j];
    }
    forall d | d in rs ensures d in s {
      var k :| 0 <= k < |rs| && rs[k] == d;
      assert s[base + k] == d;
    }
  }

  /** A window of a date-ordered table is itself date-ordered and holds only rows of the table. */
  lemma WindowKeepsOrder(s: seq<Distribution>, skip: int, take: int)
    requires DateDescending(s)
    requires Window(s, skip, take).Ok?
    ensures DateDescending(Window(s, skip, take).value)
    ensures forall d :: d in Window(s, skip, take).value ==> d in s
  {
    var rs := Window(s, skip, take).value;
    if take >= 0 {
      RunKeepsOrder(s, rs, if skip >= |s| then |s| else skip);
    } else {
      var stop := if skip >= |s| then 0 else |s| - skip;
      RunKeepsOrder(s, rs, stop - |rs|);
    }
  }

  /** Every page holds distributions of the ledger, latest first. */
  lemma PageIsSortedSlice(l: Ledger, q: HistoryQuery)
    requires ProfitHistory(l, q).Ok?
    ensures DateDescending(ProfitHistory(l, q).value.records)
    ensures forall d :: d in ProfitHistory(l, q).value.records ==> d in l.distributions
  {
    var s := ByDateDescending(l.distributions);
    ByDateDescendingSorts(l.distributions);
    var size := q.pageSize.GetOr(DefaultPageSize);
    var skip := (q.page.GetOr(DefaultPage) - 1) * size;
    WindowKeepsOrder(s, skip, size);
    forall d | d in s ensures d in l.distributions {
      assert d in multiset(s);
    }
  }

  /**
   * Successive pages of one size tile the ordering: record `k` is on page
   * `k / pageSize + 1`, at position `k % pageSize`, for every page size above zero.
   */
  lemma EveryRecordOnItsPage(l: Ledger, size: int, k: nat)
    requires size > 0
    requires k < |l.distributions|
    ensures var r := ProfitHistory(l, HistoryQuery(Some(k / size + 1), Some(size)));
      && r.Ok?
      && k % size < |r.value.records|
      && r.value.records[k % size] == ByDateDescending(l.distributions)[k]
  {
    var skip := (k / size + 1 - 1) * size;
    assert skip == k - k % size;
  }

  /** The total counts every distribution, whatever the page asked for. */
  lemma TotalIgnoresPaging(l: Ledger, q: HistoryQuery, q': HistoryQuery)
    requires ProfitHistory(l, q).Ok? && ProfitHistory(l, q').Ok?
    ensures ProfitHistory(l, q).value.total == ProfitHistory(l, q').value.total == |l.distributions|
  {
  }
}
