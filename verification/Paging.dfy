/** Pagination of RPC results (vm/rpc.go): the three validation functions, the window
    Validators cuts out, and TxSearch. */
module Paging {
  import opened Options

  const DEFAULT_PER_PAGE := 30
  const MAX_PER_PAGE := 100

  datatype Error = ErrPerPage | ErrPage | ErrOrderBy
  datatype Result<+T> = Ok(value: T) | Err(error: Error)

  /** Go's integer division, which truncates toward zero. */
  function Quotient(a: int, b: int): int
    requires b > 0
  {
    if a >= 0 then a / b else -((-a) / b)
  }

  function ValidatePerPage(perPage: Option<int>): (r: int)
    ensures 1 <= r <= 100
    ensures perPage.Some? && 1 <= perPage.value <= 100 ==> r == perPage.value
    ensures perPage.Some? && perPage.value > 100 ==> r == 100
    ensures perPage.None? || perPage.value < 1 ==> r == 30
  {
    if perPage.None? then DEFAULT_PER_PAGE
    else if perPage.value < 1 then DEFAULT_PER_PAGE
    else if perPage.value > MAX_PER_PAGE then MAX_PER_PAGE
    else perPage.value
  }

  /** The number of pages, at least one. */
  function NumPages(perPage: int, total: nat): int
    requires perPage > 0
  {
    var pages := Quotient(total - 1, perPage) + 1;
    if pages == 0 then 1 else pages
  }

  /** Without a page number the first page is meant; a number is accepted exactly if its
      page starts inside the results, or is the only page there is. */
  function ValidatePage(page: Option<int>, perPage: int, total: nat): (r: Result<int>)
    ensures r == Err(ErrPerPage) <==> perPage < 1
    ensures perPage >= 1 && page.None? ==> r == Ok(1)
    ensures perPage >= 1 && page.Some? ==>
              r == if page.value == 1 || (page.value > 1 && (page.value - 1) * perPage < total) then Ok(page.value)
                   else Err(ErrPage)
  {
    PageExists(page, perPage, total);
    if perPage < 1 then Err(ErrPerPage)
    else if page.None? then Ok(1)
    else if page.value <= 0 || page.value > NumPages(perPage, total) then Err(ErrPage)
    else Ok(page.value)
  }

  /** What lies before a page; never negative. */
  function ValidateSkipCount(page: int, perPage: int): (r: int)
    ensures r >= 0
    ensures page >= 1 && perPage >= 0 ==> r == (page - 1) * perPage
    ensures page < 1 && perPage >= 0 ==> r == 0
  {
    SkipSign(page, perPage);
    var skip := (page - 1) * perPage;
    if skip < 0 then 0 else skip
  }

  function Min(a: int, b: int): int {
    if a < b then a else b
  }

  lemma SkipSign(page: int, perPage: int)
    ensures page >= 1 && perPage >= 0 ==> (page - 1) * perPage >= 0
    ensures page < 1 && perPage >= 0 ==> (page - 1) * perPage <= 0
  {
  }

  lemma PageExists(page: Option<int>, perPage: int, total: nat)
    ensures perPage > 0 ==> NumPages(perPage, total) >= 1
    ensures perPage > 0 && page.Some? && page.value > 1 ==>
              (page.value <= NumPages(perPage, total) <==> (page.value - 1) * perPage < total)
  {
    if perPage > 0 {
      LastPage(perPage, total);
      if page.Some? && page.value > 1 {
        var n := NumPages(perPage, total);
        if page.value <= n {
          MulMonotone(page.value - 1, n - 1, perPage);
          MulMonotone(1, page.value - 1, perPage);
        } else {
          MulMonotone(n, page.value - 1, perPage);
        }
      }
    }
  }

  /** The last page starts inside the results, and ends at or behind their end. */
  lemma LastPage(perPage: int, total: nat)
    requires perPage > 0
    ensures var n := NumPages(perPage, total);
            1 <= n && (n - 1) * perPage <= total <= n * perPage && (total > 0 ==> (n - 1) * perPage < total)
  {
    if total == 0 {
      DivideOne(perPage);
    } else {
      DivideBounds(total - 1, perPage);
    }
  }

  lemma DivideBounds(a: nat, b: nat)
    requires b > 0
    ensures (a / b) * b <= a < (a / b + 1) * b && 0 <= a / b
  {
    assert a == (a / b) * b + a % b;
  }

  lemma DivideOne(b: nat)
    requires b > 0
    ensures 1 / b == if b == 1 then 1 else 0
  {
  }

  lemma MulMonotone(a: int, b: int, c: int)
    requires a <= b && 0 <= c
    ensures a * c <= b * c
  {
  }

  /** Every accepted page has its window inside the results. */
  lemma WindowInRange(page: int, perPage: int, total: nat)
    requires perPage > 0 && 1 <= page <= NumPages(perPage, total)
    ensures var skip := ValidateSkipCount(page, perPage);
            skip == (page - 1) * perPage && 0 <= skip <= total && 0 <= Min(perPage, total - skip)
  {
    LastPage(perPage, total);
    MulMonotone(page - 1, NumPages(perPage, total) - 1, perPage);
    MulMonotone(0, page - 1, perPage);
  }

  /** The page of s that the validated page number stands for. */
  function Page<T>(s: seq<T>, page: int, perPage: int): seq<T>
    requires perPage > 0 && 1 <= page <= NumPages(perPage, |s|)
  {
    WindowInRange(page, perPage, |s|);
    var skip := ValidateSkipCount(page, perPage);
    s[skip..skip + Min(perPage, |s| - skip)]
  }

  /** Pages 1 to n, one after the other. */
  function FirstPages<T>(s: seq<T>, n: nat, perPage: int): seq<T>
    requires perPage > 0 && n <= NumPages(perPage, |s|)
  {
    if n == 0 then [] else FirstPages(s, n - 1, perPage) + Page(s, n, perPage)
  }

  lemma {:induction false} FirstPagesArePrefix<T>(s: seq<T>, n: nat, perPage: int)
    requires perPage > 0 && n <= NumPages(perPage, |s|)
    ensures FirstPages(s, n, perPage) == s[..Min(n * perPage, |s|)]
  {
    if n > 0 {
      FirstPagesArePrefix(s, n - 1, perPage);
      WindowInRange(n, perPage, |s|);
      assert n * perPage == (n - 1) * perPage + perPage;
    }
  }

  /** All pages together are the whole, nothing missing and nothing twice. */
  lemma PagesPartition<T>(s: seq<T>, perPage: int)
    requires perPage > 0
    ensures NumPages(perPage, |s|) >= 1
    ensures FirstPages(s, NumPages(perPage, |s|), perPage) == s
  {
    LastPage(perPage, |s|);
    FirstPagesArePrefix(s, NumPages(perPage, |s|), perPage);
  }

  /** Validators: the window of the validator list. */
  method Window<T>(s: seq<T>, page: Option<int>, perPage: Option<int>) returns (r: Result<seq<T>>)
    ensures var per := ValidatePerPage(perPage);
            if page.Some? && !(1 <= page.value <= NumPages(per, |s|)) then r == Err(ErrPage)
            else
              var p := if page.Some? then page.value else 1;
              1 <= p <= NumPages(per, |s|) && r == Ok(Page(s, p, per))
  {
    var per := ValidatePerPage(perPage);
    LastPage(per, |s|);
    var p := ValidatePage(page, per, |s|);
    if p.Err? {
      return Err(p.error);
    }
    WindowInRange(p.value, per, |s|);
    var skip := ValidateSkipCount(p.value, per);
    r := Ok(s[skip..skip + Min(per, |s| - skip)]);
  }

  // ----------------------------------------------------------------- sorting

  datatype Tx = Tx(height: int, index: int, body: nat)

  datatype Order = Asc | Desc

  /** The comparison functions handed to sort.Slice. */
  predicate Before(order: Order, a: Tx, b: Tx) {
    match order
    case Asc => if a.height == b.height then a.index < b.index else a.height < b.height
    case Desc => if a.height == b.height then a.index > b.index else a.height > b.height
  }

  ghost predicate Sorted(order: Order, s: seq<Tx>) {
    forall i, j :: 0 <= i < j < |s| ==> !Before(order, s[j], s[i])
  }

  /** No two results have the same height and index. */
  ghost predicate UniquePlaces(s: seq<Tx>) {
    forall i, j :: 0 <= i < j < |s| ==> s[i].height != s[j].height || s[i].index != s[j].index
  }

  function Insert(order: Order, s: seq<Tx>, t: Tx): seq<Tx> {
    if s == [] || !Before(order, t, s[|s| - 1]) then s + [t]
    else Insert(order, s[..|s| - 1], t) + [s[|s| - 1]]
  }

  /** What sort.Slice does with a slice, and all that it promises: a sorted permutation.
      Among results of equal height and index it may pick any order. */
  type Sorter = (Order, seq<Tx>) -> seq<Tx>

  ghost predicate Sorts(sort: Sorter) {
    forall order, s :: Sorted(order, sort(order, s)) && multiset(sort(order, s)) == multiset(s)
  }

  /** One way to do it. */
  function Sort(order: Order, s: seq<Tx>): seq<Tx> {
    if s == [] then [] else Insert(order, Sort(order, s[..|s| - 1]), s[|s| - 1])
  }

  lemma LastStaysLast(order: Order, s: seq<Tx>, t: Tx, r: seq<Tx>)
    requires Sorted(order, s) && s != [] && Before(order, t, s[|s| - 1])
    requires multiset(r) == multiset(s[..|s| - 1]) + multiset{t}
    ensures forall i :: 0 <= i < |r| ==> !Before(order, s[|s| - 1], r[i])
  {
    forall i | 0 <= i < |r| ensures !Before(order, s[|s| - 1], r[i]) {
      assert r[i] in multiset(r);
      if r[i] != t {
        var j :| 0 <= j < |s| - 1 && s[..|s| - 1][j] == r[i];
        assert s[j] == r[i];
      }
    }
  }

  lemma {:induction false} InsertSpec(order: Order, s: seq<Tx>, t: Tx)
    requires Sorted(order, s)
    ensures Sorted(order, Insert(order, s, t)) && multiset(Insert(order, s, t)) == multiset(s) + multiset{t}
  {
    if s != [] && Before(order, t, s[|s| - 1]) {
      var n := |s| - 1;
      var r := Insert(order, s[..n], t);
      InsertSpec(order, s[..n], t);
      assert s == s[..n] + [s[n]];
      assert multiset(r) == multiset(s[..n]) + multiset{t};
      LastStaysLast(order, s, t, r);
      SortedSnoc(order, r, s[n]);
    } else {
      forall i | 0 <= i < |s| ensures !Before(order, t, s[i]) {
        NotBefore(order, s, t, i);
      }
      SortedSnoc(order, s, t);
    }
  }

  lemma SortedSnoc(order: Order, s: seq<Tx>, t: Tx)
    requires Sorted(order, s) && forall i :: 0 <= i < |s| ==> !Before(order, t, s[i])
    ensures Sorted(order, s + [t])
  {
  }

  lemma NotBefore(order: Order, s: seq<Tx>, t: Tx, i: nat)
    requires Sorted(order, s) && i < |s| && !Before(order, t, s[|s| - 1])
    ensures !Before(order, t, s[i])
  {
  }

  lemma {:induction false} SortSpec(order: Order, s: seq<Tx>)
    ensures Sorted(order, Sort(order, s)) && multiset(Sort(order, s)) == multiset(s)
  {
    if s != [] {
      SortSpec(order, s[..|s| - 1]);
      InsertSpec(order, Sort(order, s[..|s| - 1]), s[|s| - 1]);
      assert s == s[..|s| - 1] + [s[|s| - 1]];
    }
  }

  lemma SameFirst(order: Order, a: seq<Tx>, b: seq<Tx>)
    requires Sorted(order, a) && Sorted(order, b) && multiset(a) == multiset(b) && UniquePlaces(a)
    requires a != [] && b != []
    ensures a[0] == b[0]
  {
    assert a[0] in multiset(b) && b[0] in multiset(a);
    var i :| 0 <= i < |a| && a[i] == b[0];
    var j :| 0 <= j < |b| && b[j] == a[0];
  }

  lemma RestPermutes(a: seq<Tx>, b: seq<Tx>)
    requires a != [] && b != [] && a[0] == b[0] && multiset(a) == multiset(b)
    ensures multiset(a[1..]) == multiset(b[1..])
  {
    assert a == [a[0]] + a[1..] && b == [b[0]] + b[1..];
    assert multiset(a[1..]) == multiset(a) - multiset{a[0]};
    assert multiset(b[1..]) == multiset(b) - multiset{b[0]};
  }

  /** With unique places there is one sorted arrangement only. */
  lemma {:induction false} SortedIsUnique(order: Order, a: seq<Tx>, b: seq<Tx>)
    requires Sorted(order, a) && Sorted(order, b) && multiset(a) == multiset(b) && UniquePlaces(a)
    ensures a == b
  {
    assert |a| == |multiset(a)| == |multiset(b)| == |b|;
    if a != [] {
      SameFirst(order, a, b);
      RestPermutes(a, b);
      SortedIsUnique(order, a[1..], b[1..]);
    }
  }

  lemma PlacesPermute(a: seq<Tx>, b: seq<Tx>)
    requires multiset(a) == multiset(b) && UniquePlaces(a)
    ensures UniquePlaces(b)
  {
    forall i, j | 0 <= i < j < |b| ensures b[i].height != b[j].height || b[i].index != b[j].index {
      assert b == b[..i] + [b[i]] + b[i + 1..j] + [b[j]] + b[j + 1..];
      assert b[i] in multiset(a) && b[j] in multiset(a);
      var m :| 0 <= m < |a| && a[m] == b[i];
      var n :| 0 <= n < |a| && a[n] == b[j];
      if m == n {
        TwiceIn(a, b, i, j, m);
      }
    }
  }

  lemma TwiceIn(a: seq<Tx>, b: seq<Tx>, i: nat, j: nat, m: nat)
    requires multiset(a) == multiset(b) && i < j < |b| && b[i] == b[j] && m < |a| && a[m] == b[i]
    ensures exists n :: 0 <= n < |a| && n != m && a[n] == a[m]
  {
    CountTwo(b, i, j);
    var rest := a[..m] + a[m + 1..];
    assert a == a[..m] + [a[m]] + a[m + 1..];
    assert multiset(a) == multiset(rest) + multiset{a[m]};
    var k :| 0 <= k < |rest| && rest[k] == a[m];
    assert a[if k < m then k else k + 1] == a[m];
  }

  lemma CountTwo(b: seq<Tx>, i: nat, j: nat)
    requires i < j < |b| && b[i] == b[j]
    ensures multiset(b)[b[i]] >= 2
  {
    assert b == b[..i] + [b[i]] + b[i + 1..j] + [b[j]] + b[j + 1..];
  }

  lemma SortSorts()
    ensures Sorts(Sort)
  {
    forall order, s ensures Sorted(order, Sort(order, s)) && multiset(Sort(order, s)) == multiset(s) {
      SortSpec(order, s);
    }
  }

  /** With unique places, sorting any arrangement of the same results gives the same
      sequence, whatever the sorting algorithm. */
  lemma SortPermutes(sort: Sorter, order: Order, a: seq<Tx>, b: seq<Tx>)
    requires Sorts(sort) && multiset(a) == multiset(b) && UniquePlaces(a)
    ensures sort(order, a) == sort(order, b) == Sort(order, a)
  {
    SortSorts();
    PlacesPermute(a, sort(order, a));
    SortedIsUnique(order, sort(order, a), sort(order, b));
    SortedIsUnique(order, sort(order, a), Sort(order, a));
  }

  /** Height, and index within a height, never fall along the sequence. */
  ghost predicate NeverFalls(s: seq<Tx>) {
    forall i, j :: 0 <= i < j < |s| ==>
      s[i].height < s[j].height || (s[i].height == s[j].height && s[i].index <= s[j].index)
  }

  /** Height, and index within a height, never rise along the sequence. */
  ghost predicate NeverRises(s: seq<Tx>) {
    forall i, j :: 0 <= i < j < |s| ==>
      s[i].height > s[j].height || (s[i].height == s[j].height && s[i].index >= s[j].index)
  }

  lemma SortedRunsOneWay(order: Order, s: seq<Tx>)
    requires Sorted(order, s)
    ensures order == Asc ==> NeverFalls(s)
    ensures order == Desc ==> NeverRises(s)
  {
  }

  lemma PageOfSorted(order: Order, s: seq<Tx>, page: int, perPage: int)
    requires Sorted(order, s) && perPage > 0 && 1 <= page <= NumPages(perPage, |s|)
    ensures Sorted(order, Page(s, page, perPage)) && multiset(Page(s, page, perPage)) <= multiset(s)
  {
    WindowInRange(page, perPage, |s|);
    var skip := ValidateSkipCount(page, perPage);
    var end := skip + Min(perPage, |s| - skip);
    assert s == s[..skip] + s[skip..end] + s[end..];
  }

  // ----------------------------------------------------------------- TxSearch

  function ParseOrder(orderBy: string): Option<Order> {
    if orderBy == "desc" then Some(Desc) else if orderBy == "asc" || orderBy == "" then Some(Asc) else None
  }

  /** The answer is the requested page of the sorted results, with their number. */
  method TxSearch(sort: Sorter, results: seq<Tx>, page: Option<int>, perPage: Option<int>, orderBy: string)
      returns (r: Result<(seq<Tx>, int)>)
    requires Sorts(sort)
    ensures r == Err(ErrOrderBy) <==> orderBy != "asc" && orderBy != "" && orderBy != "desc"
    ensures r.Ok? && (orderBy == "asc" || orderBy == "") ==> NeverFalls(r.value.0)
    ensures r.Ok? && orderBy == "desc" ==> NeverRises(r.value.0)
    ensures r.Ok? ==> multiset(r.value.0) <= multiset(results) && r.value.1 == |results|
    ensures ParseOrder(orderBy).None? ==> r == Err(ErrOrderBy)
    ensures ParseOrder(orderBy).Some? ==>
              var sorted, per := sort(ParseOrder(orderBy).value, results), ValidatePerPage(perPage);
              && |sorted| == |results|
              && if page.Some? && !(1 <= page.value <= NumPages(per, |results|)) then r == Err(ErrPage)
                 else
                   var p := if page.Some? then page.value else 1;
                   1 <= p <= NumPages(per, |results|) && r == Ok((Page(sorted, p, per), |results|))
  {
    var order := ParseOrder(orderBy);
    if order.None? {
      return Err(ErrOrderBy);
    }
    var sorted := sort(order.value, results);
    assert multiset(sorted) == multiset(results);
    assert |sorted| == |multiset(sorted)| == |multiset(results)| == |results|;
    var found := Paginate(sorted, page, perPage);
    r := if found.Ok? then Ok((found.value, |sorted|)) else Err(found.error);
    if r.Ok? {
      PageOfSorted(order.value, sorted, if page.Some? then page.value else 1, ValidatePerPage(perPage));
      SortedRunsOneWay(order.value, r.value.0);
    }
  }

  /** The second half of TxSearch, on the sorted results. */
  method Paginate(sorted: seq<Tx>, page: Option<int>, perPage: Option<int>) returns (r: Result<seq<Tx>>)
    ensures var per := ValidatePerPage(perPage);
            if page.Some? && !(1 <= page.value <= NumPages(per, |sorted|)) then r == Err(ErrPage)
            else
              var p := if page.Some? then page.value else 1;
              1 <= p <= NumPages(per, |sorted|) && r == Ok(Page(sorted, p, per))
  {
    var per := ValidatePerPage(perPage);
    LastPage(per, |sorted|);
    var p := ValidatePage(page, per, |sorted|);
    if p.Err? {
      return Err(p.error);
    }
    WindowInRange(p.value, per, |sorted|);
    var skip := ValidateSkipCount(p.value, per);
    var size := Min(per, |sorted| - skip);
    var apiResults: seq<Tx> := [];
    for i := skip to skip + size
      invariant apiResults == sorted[skip..i]
    {
      apiResults := apiResults + [sorted[i]];
    }
    r := Ok(apiResults);
  }

  /** One of several calls, which gets the results in an order of its own. */
  method OnePage(sort: Sorter, results: seq<Tx>, answer: seq<Tx>, page: int, perPage: Option<int>, orderBy: string,
                 ghost sorted: seq<Tx>)
      returns (found: seq<Tx>)
    requires Sorts(sort) && UniquePlaces(results) && multiset(answer) == multiset(results)
    requires ParseOrder(orderBy).Some? && sorted == sort(ParseOrder(orderBy).value, results) && |sorted| == |results|
    requires 1 <= page <= NumPages(ValidatePerPage(perPage), |results|)
    ensures found == Page(sorted, page, ValidatePerPage(perPage))
  {
    assert |answer| == |multiset(answer)| == |multiset(results)| == |results|;
    SortPermutes(sort, ParseOrder(orderBy).value, results, answer);
    var r := TxSearch(sort, answer, Some(page), perPage, orderBy);
    found := r.value.0;
  }

  /** Asking for page 1, 2, ... in separate calls, each of which may get the results in
      another order, yields the whole sorted result, each transaction once. */
  method AllPages(sort: Sorter, results: seq<Tx>, answers: seq<seq<Tx>>, perPage: Option<int>, orderBy: string)
      returns (all: seq<Tx>)
    requires Sorts(sort) && UniquePlaces(results) && (orderBy == "asc" || orderBy == "" || orderBy == "desc")
    requires |answers| == NumPages(ValidatePerPage(perPage), |results|)
    requires forall i :: 0 <= i < |answers| ==> multiset(answers[i]) == multiset(results)
    ensures multiset(all) == multiset(results)
    ensures orderBy == "asc" || orderBy == "" ==> NeverFalls(all)
    ensures orderBy == "desc" ==> NeverRises(all)
  {
    ghost var order := ParseOrder(orderBy).value;
    ghost var sorted, per := sort(order, results), ValidatePerPage(perPage);
    assert multiset(sorted) == multiset(results);
    assert |sorted| == |multiset(sorted)| == |results|;
    all := [];
    for i := 0 to |answers|
      invariant all == FirstPages(sorted, i, per)
    {
      var found := OnePage(sort, results, answers[i], i + 1, perPage, orderBy, sorted);
      all := all + found;
    }
    PagesPartition(sorted, per);
    SortedRunsOneWay(order, sorted);
  }
}
