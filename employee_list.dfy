/** The employee table: entries in their listed order, ten to a page, a
    guarded page change, and the truncated skills cell of each row. */
module EmployeeList {
  import opened Records
  import opened Text
  import Skills

  const ItemsPerPage: nat := 10

  function Min(a: int, b: int): int {
    if a < b then a else b
  }

  /** `Math.ceil(n / itemsPerPage)`: the fewest pages of ten that hold `n` entries. */
  function TotalPages(n: nat): (t: nat)
    ensures n <= t * ItemsPerPage
    ensures t == 0 || (t - 1) * ItemsPerPage < n
  {
    (n + ItemsPerPage - 1) / ItemsPerPage
  }

  /** The rows of page `page` (counted from 1): `slice(startIndex, startIndex + 10)`,
      where a slice past the end is cut short or empty. */
  function PageOf<T>(entries: seq<T>, page: nat): (r: seq<T>)
    requires page >= 1
    ensures |r| <= ItemsPerPage
    ensures |r| == Min(|entries|, page * ItemsPerPage) - Min(|entries|, (page - 1) * ItemsPerPage)
    ensures forall i :: 0 <= i < |r| ==> r[i] == entries[(page - 1) * ItemsPerPage + i]
    ensures 1 <= page <= TotalPages(|entries|) ==> |r| >= 1
  {
    var n := |entries|;
    entries[Min(n, (page - 1) * ItemsPerPage)..Min(n, page * ItemsPerPage)]
  }

  /** Pages `1..k` shown one after another. */
  function PagesUpTo<T>(entries: seq<T>, k: nat): seq<T>
  {
    if k == 0 then [] else PagesUpTo(entries, k - 1) + PageOf(entries, k)
  }

  /** The first `k` pages are exactly the first `10 * k` entries (or all of them). */
  lemma {:induction false} PagesUpToPrefix<T>(entries: seq<T>, k: nat)
    ensures PagesUpTo(entries, k) == entries[..Min(|entries|, k * ItemsPerPage)]
  {
    if k > 0 {
      PagesUpToPrefix(entries, k - 1);
      var n := |entries|;
      var a := Min(n, (k - 1) * ItemsPerPage);
      var b := Min(n, k * ItemsPerPage);
      assert entries[..a] + entries[a..b] == entries[..b];
    }
  }

  /** Paging through every page shows every entry once, in order. */
  lemma AllPagesShowAll<T>(entries: seq<T>)
    ensures PagesUpTo(entries, TotalPages(|entries|)) == entries
  {
    PagesUpToPrefix(entries, TotalPages(|entries|));
  }

  /** The page number the table is on. */
  class Pager {
    var currentPage: nat

    predicate Valid()
      reads this
    {
      currentPage >= 1
    }

    constructor ()
      ensures currentPage == 1 && Valid()
    {
      currentPage := 1;
    }

    /** `goToPage(page)` with `count` entries listed: the page changes only
        to one that exists; any other request changes nothing. */
    method GoToPage(page: int, count: nat)
      requires Valid()
      modifies this
      ensures Valid()
      ensures 1 <= page <= TotalPages(count) ==> currentPage == page
      ensures !(1 <= page <= TotalPages(count)) ==> currentPage == old(currentPage)
    {
      if 1 <= page && page <= TotalPages(count) {
        currentPage := page;
      }
    }

    /** The rows on screen. */
    function Visible<T>(entries: seq<T>): seq<T>
      reads this
      requires Valid()
    {
      PageOf(entries, currentPage)
    }
  }

  /** With no entries there are no pages, so no page request is honoured and
      the table stays on page 1. */
  lemma NoEntriesNoPages(page: int)
    ensures TotalPages(0) == 0
    ensures !(1 <= page <= TotalPages(0))
  {
  }

  /** The skills cell: the first two skills joined with `', '`, and whether
      the ellipsis is shown. A row without a skill list shows nothing. */
  datatype SkillsCell = SkillsCell(text: string, ellipsis: bool)

  function SkillsCellOf(skills: Option<seq<string>>): (c: SkillsCell)
    ensures c.ellipsis <==> skills.Some? && |skills.value| > 2
    ensures skills.None? ==> c.text == ""
  {
    match skills
    case None => SkillsCell("", false)
    case Some(s) => SkillsCell(Join(s[..Min(|s|, 2)], ", "), |s| > 2)
  }

  /** For clean skills the cell text names exactly the first two skills (or
      all of them when there are fewer). */
  lemma SkillsCellShowsFirstTwo(s: seq<string>)
    requires Skills.AllClean(s)
    ensures Skills.Parse(SkillsCellOf(Some(s)).text) == s[..Min(|s|, 2)]
  {
    Skills.ParseJoinCommaBlank(s[..Min(|s|, 2)]);
  }
}
