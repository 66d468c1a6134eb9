/**
 Paginated invoice listing: the client's loop (zdrovena/common/client.py, fetch_invoices) against the
 slicing server of the emulator (zdrovena/fake_providers/fakturownia.py, list_invoices).
 */
module Pagination {
  import opened Prelude

  datatype Invoice = Invoice(
    number: Option<string>, oid: Option<string>, income: Option<string>,
    sellDate: string, issueDate: string, body: string)

  /** The filters of one request; the empty text is no filter. */
  datatype Query = Query(number: string, oid: string, income: string, dateFrom: string, dateTo: string)

  // ---- Server --------------------------------------------------------------------------------------

  /** Text order, code point by code point. */
  predicate NotAfter(a: string, b: string) {
    a == "" || (b != "" && (a[0] < b[0] || (a[0] == b[0] && NotAfter(a[1..], b[1..]))))
  }

  function Dated(invoice: Invoice): string {
    if invoice.sellDate != "" then invoice.sellDate else invoice.issueDate
  }

  function Income(invoice: Invoice): string {
    if invoice.income.Some? then invoice.income.value else "yes"
  }

  function Filter<T>(items: seq<T>, keeps: T -> bool): seq<T> {
    if items == [] then []
    else Filter(items[..|items| - 1], keeps)
         + if keeps(items[|items| - 1]) then [items[|items| - 1]] else []
  }

  /** Python's list slice for bounds that are not negative: out of range is empty, not an error. */
  function Slice<T>(items: seq<T>, lo: nat, hi: nat): seq<T>
    requires lo <= hi
  {
    if |items| <= lo then [] else if |items| <= hi then items[lo..] else items[lo..hi]
  }

  function Max(a: int, b: nat): nat { if a <= b then b else a }

  /** A filter that is applied only when asked for. */
  function FilterIf<T>(items: seq<T>, asked: bool, keeps: T -> bool): seq<T> {
    if asked then Filter(items, keeps) else items
  }

  /** The five filters one after the other, each only when asked for. */
  function Filtered(invoices: seq<Invoice>, q: Query): seq<Invoice> {
    var a := FilterIf(invoices, q.number != "", (i: Invoice) => i.number == Some(q.number));
    var b := FilterIf(a, q.oid != "", (i: Invoice) => i.oid == Some(q.oid));
    var c := FilterIf(b, q.income != "", (i: Invoice) => Income(i) == q.income);
    var d := FilterIf(c, q.dateFrom != "", (i: Invoice) => NotAfter(q.dateFrom, Dated(i)));
    FilterIf(d, q.dateTo != "", (i: Invoice) => NotAfter(Dated(i), q.dateTo))
  }

  /** A page of a list, as the server slices it. */
  function PageOf<T>(items: seq<T>, page: int, perPage: nat): seq<T> {
    var start := Max(page - 1, 0) * perPage;
    Slice(items, start, start + perPage)
  }

  function ListInvoices(invoices: seq<Invoice>, q: Query, page: int, perPage: nat): seq<Invoice> {
    PageOf(Filtered(invoices, q), page, perPage)
  }

  // ---- Client --------------------------------------------------------------------------------------

  /** How many entries the pages before `page` hold when all of them are full. */
  function Before(page: nat, perPage: nat): nat {
    if page <= 1 then 0 else Before(page - 1, perPage) + perPage
  }

  lemma {:induction false} BeforeIsProduct(page: nat, perPage: nat)
    requires page >= 1
    ensures Before(page, perPage) == (page - 1) * perPage
  {
    if page == 1 {
    } else {
      BeforeIsProduct(page - 1, perPage);
      assert (page - 1) * perPage == (page - 2) * perPage + perPage;
    }
  }

  /** A page continues the full ones before it, and is short or empty exactly at the end of the list. */
  lemma NextPage<T>(items: seq<T>, page: nat, perPage: nat)
    requires page >= 1 && perPage >= 1 && Before(page, perPage) <= |items|
    ensures var start, data := Before(page, perPage), PageOf(items, page, perPage);
            && (|data| == perPage ==> Before(page + 1, perPage) <= |items|)
            && (|data| == perPage ==> items[..start] + data == items[..Before(page + 1, perPage)])
            && (|data| < perPage ==> items[..start] + data == items && |items| / perPage + 1 == page)
            && |data| <= perPage
  {
    BeforeIsProduct(page, perPage);
    PageBounds(items, Before(page, perPage), perPage);
    if |items| < Before(page, perPage) + perPage {
      FullPages(|items|, page - 1, perPage);
    }
  }

  /** Main result: the loop ends, returns the whole filtered list in order, and asks one page more than
      the list has full pages. */
  method FetchInvoices(server: seq<Invoice>, q: Query, perPage: nat)
    returns (all: seq<Invoice>, requests: nat)
    requires perPage >= 1
    ensures all == Filtered(server, q)
    ensures requests == |all| / perPage + 1
  {
    ghost var wanted := Filtered(server, q);
    all, requests := [], 0;
    var page := 1;
    while true
      invariant page >= 1 && requests == page - 1
      invariant Before(page, perPage) <= |wanted| && all == wanted[..Before(page, perPage)]
      decreases |wanted| - |all|
    {
      NextPage(wanted, page, perPage);
      var data := ListInvoices(server, q, page, perPage);
      requests := requests + 1;
      if data == [] {
        break;
      }
      all := all + data;
      if |data| < perPage {
        break;
      }
      page := page + 1;
    }
  }

  /** One slice continues exactly where the previous ones ended. */
  lemma PageBounds<T>(items: seq<T>, start: nat, perPage: nat)
    requires start <= |items| && perPage >= 1
    ensures items[..start] + Slice(items, start, start + perPage)
            == items[..if |items| <= start + perPage then |items| else start + perPage]
    ensures |Slice(items, start, start + perPage)| < perPage <==> |items| < start + perPage
    ensures Slice(items, start, start + perPage) == [] <==> |items| == start
  {
  }

  lemma FullPages(n: nat, pages: nat, perPage: nat)
    requires perPage >= 1 && pages * perPage <= n < pages * perPage + perPage
    ensures n / perPage == pages
  {
    DivideSum(pages, perPage, n - pages * perPage);
  }

  lemma DivideSum(pages: nat, perPage: nat, rest: nat)
    requires perPage >= 1 && rest < perPage
    ensures (perPage * pages + rest) / perPage == pages
  {
    var q := (perPage * pages + rest) / perPage;
    TimesMonotone(perPage, q + 1, pages);
    TimesMonotone(perPage, pages + 1, q);
  }

  lemma TimesMonotone(k: nat, a: int, b: int)
    ensures a <= b ==> k * a <= k * b
  {
  }

  // ---- What the filters leave ------------------------------------------------------------------------

  /** The date an invoice is filtered by is its sell date, or its issue date where there is none; an invoice
      without an income mark counts as income. */
  predicate Wanted(q: Query, invoice: Invoice) {
    && (q.number == "" || invoice.number == Some(q.number))
    && (q.oid == "" || invoice.oid == Some(q.oid))
    && (q.income == "" || invoice.income == Some(q.income) || (invoice.income.None? && q.income == "yes"))
    && (var date := if invoice.sellDate == "" then invoice.issueDate else invoice.sellDate;
        && (q.dateFrom == "" || NotAfter(q.dateFrom, date)) && (q.dateTo == "" || NotAfter(date, q.dateTo)))
  }

  /** Texts are in order when the first character in which they differ is, or when one begins the other. */
  lemma {:induction false} FirstDifferenceDecides(common: string, a: string, b: string)
    ensures NotAfter(common + a, common + b) <==>
            a == "" || (b != "" && (a[0] < b[0] || (a[0] == b[0] && NotAfter(a[1..], b[1..]))))
  {
    if common == "" {
      assert common + a == a && common + b == b;
    } else {
      assert (common + a)[1..] == common[1..] + a && (common + b)[1..] == common[1..] + b;
      FirstDifferenceDecides(common[1..], a, b);
    }
  }

  /** So the order of texts is a total one, and the two date filters cut out an interval of it. */
  lemma {:induction false} NotAfterIsTotal(a: string, b: string, c: string)
    ensures NotAfter(a, b) || NotAfter(b, a)
    ensures NotAfter(a, b) && NotAfter(b, a) ==> a == b
    ensures NotAfter(a, b) && NotAfter(b, c) ==> NotAfter(a, c)
  {
    if a == "" || b == "" || c == "" {
      if a != "" && b != "" {
        NotAfterIsTotal(a[1..], b[1..], "");
        assert a == [a[0]] + a[1..] && b == [b[0]] + b[1..];
      }
    } else {
      NotAfterIsTotal(a[1..], b[1..], c[1..]);
      assert a == [a[0]] + a[1..] && b == [b[0]] + b[1..];
    }
  }

  /** A page number below one asks for the first page. */
  lemma EarlyPages<T>(items: seq<T>, page: int, perPage: nat)
    requires page <= 1
    ensures PageOf(items, page, perPage) == items[..if |items| <= perPage then |items| else perPage]
  {
    assert items[0..] == items;
  }

  lemma {:induction false} FilterTwice<T>(items: seq<T>, p: T -> bool, q: T -> bool, both: T -> bool)
    requires forall x :: x in items ==> both(x) == (p(x) && q(x))
    ensures Filter(Filter(items, p), q) == Filter(items, both)
  {
    if items == [] {
    } else {
      var front, last := items[..|items| - 1], items[|items| - 1];
      assert items == front + [last];
      FilterTwice(front, p, q, both);
      var kept := Filter(front, p);
      assert (kept + [last])[..|kept|] == kept && kept + [] == kept;
    }
  }

  lemma {:induction false} FilterAll<T>(items: seq<T>, p: T -> bool)
    requires forall x :: x in items ==> p(x)
    ensures Filter(items, p) == items
  {
    if items == [] {
    } else {
      var front, last := items[..|items| - 1], items[|items| - 1];
      assert items == front + [last];
      FilterAll(front, p);
    }
  }

  /** A filter keeps every occurrence of what it asks for and nothing else ... */
  lemma {:induction false} FilterCounts<T>(items: seq<T>, p: T -> bool, x: T)
    ensures multiset(Filter(items, p))[x] == if p(x) then multiset(items)[x] else 0
  {
    if items == [] {
    } else {
      var front, last := items[..|items| - 1], items[|items| - 1];
      assert items == front + [last];
      FilterCounts(front, p, x);
    }
  }

  /** ... in the order it was in. */
  lemma {:induction false} FilterConcat<T>(a: seq<T>, b: seq<T>, p: T -> bool)
    ensures Filter(a + b, p) == Filter(a, p) + Filter(b, p)
    decreases |b|
  {
    if b == [] {
      assert a + b == a;
    } else {
      var front, last := b[..|b| - 1], b[|b| - 1];
      assert a + b == (a + front) + [last];
      FilterConcat(a, front, p);
    }
  }

  /** An optional filter on what another one left is one filter. */
  lemma OptionalFilter<T>(items: seq<T>, before: T -> bool, asked: bool, p: T -> bool, both: T -> bool)
    requires forall x :: x in items ==> both(x) == (before(x) && (asked ==> p(x)))
    ensures FilterIf(Filter(items, before), asked, p) == Filter(items, both)
  {
    if asked {
      FilterTwice(items, before, p, both);
    } else {
      FilterSame(items, before, both);
    }
  }

  lemma {:induction false} FilterSame<T>(items: seq<T>, p: T -> bool, q: T -> bool)
    requires forall x :: x in items ==> p(x) == q(x)
    ensures Filter(items, p) == Filter(items, q)
  {
    if items == [] {
    } else {
      FilterSame(items[..|items| - 1], p, q);
    }
  }

  /** The chain of filters is the one filter that asks for all of them. */
  lemma FiltersCombine(invoices: seq<Invoice>, q: Query)
    ensures Filtered(invoices, q) == Filter(invoices, (i: Invoice) => Wanted(q, i))
  {
    var none := (i: Invoice) => true;
    var number := (i: Invoice) => q.number == "" || i.number == Some(q.number);
    var oid := (i: Invoice) => number(i) && (q.oid == "" || i.oid == Some(q.oid));
    var income := (i: Invoice) => oid(i) && (q.income == "" || Income(i) == q.income);
    var from := (i: Invoice) => income(i) && (q.dateFrom == "" || NotAfter(q.dateFrom, Dated(i)));
    FilterAll(invoices, none);
    OptionalFilter(invoices, none, q.number != "", (i: Invoice) => i.number == Some(q.number), number);
    OptionalFilter(invoices, number, q.oid != "", (i: Invoice) => i.oid == Some(q.oid), oid);
    OptionalFilter(invoices, oid, q.income != "", (i: Invoice) => Income(i) == q.income, income);
    OptionalFilter(invoices, income, q.dateFrom != "", (i: Invoice) => NotAfter(q.dateFrom, Dated(i)), from);
    OptionalFilter(invoices, from, q.dateTo != "", (i: Invoice) => NotAfter(Dated(i), q.dateTo),
                   (i: Invoice) => Wanted(q, i));
  }
}
