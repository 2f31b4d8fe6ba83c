/** The census list page: the page state with its guarded navigation, the row label, and the
    window of page buttons under the table. */
module CensusPage {
  import opened Common
  import Mumineen

  /** The label of a row: `Head of Family` when the member's head is itself or missing. */
  predicate HeadLabel(itsId: string, hofItsId: Option<string>)
  {
    hofItsId == Some(itsId) || hofItsId.None?
  }

  /** The page labels exactly the rows the server counts as heads of family. */
  lemma HeadLabelAgrees(rows: seq<Mumineen.Member>, m: Mumineen.Member)
    ensures HeadLabel(m.itsId, m.hofItsId) <==> Mumineen.IsHof(m)
    ensures m in rows ==> (HeadLabel(m.itsId, m.hofItsId) <==> m in Mumineen.Hofs(rows))
  {
  }

  // ---------------------------------------------------------------- the button window

  /** A control between Previous and Next: a page button or an ellipsis. */
  datatype Item = PageButton(page: int) | Ellipsis

  /** `Array.from({ length: total }, (_, i) => i + 1)`. */
  function AllPages(total: int): (r: seq<Item>)
    ensures |r| == if total < 0 then 0 else total
    ensures forall i :: 0 <= i < |r| ==> r[i] == PageButton(i + 1)
  {
    if total <= 0 then [] else AllPages(total - 1) + [PageButton(total)]
  }

  function When<T>(c: bool, items: seq<T>): seq<T>
  {
    if c then items else []
  }

  /** The controls shown for `current` of `total` pages: every page up to five pages, else the
      first and last page, the neighbours of the current page, and ellipses. */
  function Window(current: int, total: int): seq<Item>
  {
    if total <= 5 then AllPages(total)
    else
      When(current > 2, [PageButton(1)])
      + When(current > 3, [Ellipsis])
      + When(current > 1, [PageButton(current - 1)])
      + [PageButton(current)]
      + When(current < total, [PageButton(current + 1)])
      + When(current < total - 2, [Ellipsis])
      + When(current < total - 1, [PageButton(total)])
  }

  /** Up to five pages: one button per page, in order. */
  lemma SmallWindow(current: int, total: int)
    requires total <= 5
    ensures Window(current, total) == AllPages(total)
    ensures forall p :: PageButton(p) in Window(current, total) <==> 1 <= p <= total
  {
    var w := AllPages(total);
    forall p
      ensures PageButton(p) in w <==> 1 <= p <= total
    {
      if 1 <= p <= total {
        assert w[p - 1] == PageButton(p);
      }
    }
  }

  /** Over five pages: the buttons are the first and the last page and the pages next to the
      current one, the current page included; an ellipsis shows exactly when pages are hidden
      before or behind the current page's neighbours. */
  lemma LargeWindow(current: int, total: int)
    requires 5 < total && 1 <= current <= total
    ensures forall p :: PageButton(p) in Window(current, total) <==>
      1 <= p <= total && (p == 1 || p == total || current - 1 <= p <= current + 1)
    ensures Ellipsis in Window(current, total) <==> current > 3 || current < total - 2
  {
    var a := When(current > 2, [PageButton(1)]);
    var b := When(current > 3, [Ellipsis]);
    var c := When(current > 1, [PageButton(current - 1)]);
    var d := When(current < total, [PageButton(current + 1)]);
    var e := When(current < total - 2, [Ellipsis]);
    var f := When(current < total - 1, [PageButton(total)]);
    var w := a + b + c + [PageButton(current)] + d + e + f;
    assert Window(current, total) == w;
    forall x
      ensures x in w <==> x in a || x in b || x in c || x == PageButton(current) || x in d || x in e || x in f
    {
    }
    forall p
      ensures PageButton(p) in w <==> 1 <= p <= total && (p == 1 || p == total || current - 1 <= p <= current + 1)
    {
      if p == 1 && current > 2 {
        assert PageButton(p) in a;
      } else if p == 1 && current == 2 {
        assert PageButton(p) in c;
      } else if p == total && current < total - 1 {
        assert PageButton(p) in f;
      } else if p == total && current == total - 1 {
        assert PageButton(p) in d;
      } else if p == current - 1 && current > 1 {
        assert PageButton(p) in c;
      } else if p == current + 1 && current < total {
        assert PageButton(p) in d;
      }
    }
  }

  /** The page numbers of a window, in order. */
  function Pages(items: seq<Item>): (r: seq<int>)
    ensures |r| <= |items|
  {
    if items == [] then []
    else (if items[0].PageButton? then [items[0].page] else []) + Pages(items[1..])
  }

  lemma {:induction false} PagesAppend(a: seq<Item>, b: seq<Item>)
    ensures Pages(a + b) == Pages(a) + Pages(b)
  {
    if a != [] {
      assert (a + b)[1..] == a[1..] + b;
      PagesAppend(a[1..], b);
    } else {
      assert a + b == b;
    }
  }

  lemma {:induction false} AllPagesNumbers(total: int)
    ensures Pages(AllPages(total)) == seq(if total < 0 then 0 else total, i => i + 1)
  {
    if total > 0 {
      AllPagesNumbers(total - 1);
      PagesAppend(AllPages(total - 1), [PageButton(total)]);
      assert Pages([PageButton(total)]) == [total];
    }
  }

  predicate Increasing(s: seq<int>)
  {
    forall i, j :: 0 <= i < j < |s| ==> s[i] < s[j]
  }

  /** Over five pages, the numbers shown: page 1, the neighbours, the current and the last
      page, each when its condition holds. */
  lemma LargePages(current: int, total: int)
    requires 5 < total
    ensures Pages(Window(current, total))
      == When(current > 2, [1]) + When(current > 1, [current - 1]) + [current]
         + When(current < total, [current + 1]) + When(current < total - 1, [total])
  {
    var a := When(current > 2, [PageButton(1)]);
    var b := When(current > 3, [Ellipsis]);
    var c := When(current > 1, [PageButton(current - 1)]);
    var m := [PageButton(current)];
    var d := When(current < total, [PageButton(current + 1)]);
    var e := When(current < total - 2, [Ellipsis]);
    var f := When(current < total - 1, [PageButton(total)]);
    assert Window(current, total) == a + b + c + m + d + e + f;
    PagesWhenButton(current > 2, 1);
    PagesWhenEllipsis(current > 3);
    PagesWhenButton(current > 1, current - 1);
    PagesWhenButton(true, current);
    PagesWhenButton(current < total, current + 1);
    PagesWhenEllipsis(current < total - 2);
    PagesWhenButton(current < total - 1, total);
    PagesAppend(a, b);
    PagesAppend(a + b, c);
    PagesAppend(a + b + c, m);
    PagesAppend(a + b + c + m, d);
    PagesAppend(a + b + c + m + d, e);
    PagesAppend(a + b + c + m + d + e, f);
  }

  lemma PagesWhenButton(c: bool, p: int)
    ensures Pages(When(c, [PageButton(p)])) == When(c, [p])
  {
    if c {
      assert Pages([PageButton(p)]) == [p] + Pages([]);
    }
  }

  lemma PagesWhenEllipsis(c: bool)
    ensures Pages(When(c, [Ellipsis])) == []
  {
    if c {
      assert Pages([Ellipsis]) == [] + Pages([]);
    }
  }

  lemma LargePagesIncreasing(current: int, total: int)
    requires 1 <= current <= total
    ensures Increasing(When(current > 2, [1]) + When(current > 1, [current - 1]) + [current]
      + When(current < total, [current + 1]) + When(current < total - 1, [total]))
  {
    var s1 := When(current > 2, [1]);
    AppendBelow([], current > 2, 1);
    assert [] + s1 == s1;
    var s2 := s1 + When(current > 1, [current - 1]);
    AppendBelow(s1, current > 1, current - 1);
    var s3 := s2 + When(true, [current]);
    AppendBelow(s2, true, current);
    var s4 := s3 + When(current < total, [current + 1]);
    AppendBelow(s3, current < total, current + 1);
    AppendBelow(s4, current < total - 1, total);
  }

  /** Appending, when `c` holds, a number above every element keeps a run increasing; the
      elements are then the old ones and that number. */
  lemma AppendBelow(s: seq<int>, c: bool, v: int)
    requires Increasing(s)
    requires c ==> forall x :: x in s ==> x < v
    ensures Increasing(s + When(c, [v]))
    ensures forall x :: x in s + When(c, [v]) ==> x in s || (c && x == v)
  {
    if c {
      var t := s + [v];
      forall i, j | 0 <= i < j < |t| ensures t[i] < t[j] {
        if j == |s| {
          assert t[i] == s[i] && s[i] in s;
        } else {
          assert t[i] == s[i] && t[j] == s[j];
        }
      }
    } else {
      assert s + [] == s;
    }
  }

  /** The page numbers shown strictly increase, so no page shows twice. */
  lemma WindowIncreasing(current: int, total: int)
    requires 1 <= current <= total
    ensures Increasing(Pages(Window(current, total)))
  {
    if total <= 5 {
      AllPagesNumbers(total);
    } else {
      LargePages(current, total);
      LargePagesIncreasing(current, total);
    }
  }

  // ---------------------------------------------------------------- the page state

  /** Previous is disabled on the first page, Next on the last; both while loading. */
  predicate PreviousDisabled(current: int, loading: bool)
  {
    current == 1 || loading
  }

  predicate NextDisabled(current: int, total: int, loading: bool)
  {
    current == total || loading
  }

  /** The controls show only when loaded and there is more than one page. */
  predicate PaginationShown(total: int, loading: bool)
  {
    !loading && total > 1
  }

  /** `meta.last_page || 1`: a missing or zero page count counts as one page. */
  function PageCount(lastPage: Option<int>): (r: int)
    ensures lastPage.Some? && lastPage.value != 0 ==> r == lastPage.value
    ensures lastPage.None? || lastPage == Some(0) ==> r == 1
  {
    if lastPage.Some? && lastPage.value != 0 then lastPage.value else 1
  }

  class CensusPager {
    var currentPage: int
    var totalPages: int

    predicate Valid()
      reads this
    {
      1 <= currentPage <= totalPages
    }

    constructor ()
      ensures currentPage == 1 && totalPages == 1 && Valid()
    {
      currentPage := 1;
      totalPages := 1;
    }

    /** `goToPage`: only a page within `1..totalPages` is taken. */
    method GoToPage(page: int)
      modifies this
      ensures currentPage == (if 1 <= page <= totalPages then page else old(currentPage))
      ensures totalPages == old(totalPages)
      ensures old(Valid()) ==> Valid()
    {
      if page >= 1 && page <= totalPages {
        currentPage := page;
      }
    }

    /** `handleSearch`: back to the first page; the page to fetch is returned. */
    method HandleSearch() returns (fetchPage: int)
      modifies this
      ensures currentPage == 1 && fetchPage == 1 && totalPages == old(totalPages)
    {
      currentPage := 1;
      fetchPage := 1;
    }

    /** A successful answer carrying a list sets the page count; any other answer keeps it. */
    method ReceivePage(listed: bool, lastPage: Option<int>)
      modifies this
      ensures totalPages == (if listed then PageCount(lastPage) else old(totalPages))
      ensures currentPage == old(currentPage)
    {
      if listed {
        totalPages := PageCount(lastPage);
      }
    }
  }

  /** Previous from the first page and Next from the last page never leave the range. */
  lemma NavigationStaysInRange(current: int, total: int, target: int)
    requires 1 <= current <= total
    requires target == current - 1 || target == current + 1
    ensures (1 <= target <= total) <==>
      (target == current - 1 && !PreviousDisabled(current, false)) || (target == current + 1 && !NextDisabled(current, total, false))
  {
  }
}
