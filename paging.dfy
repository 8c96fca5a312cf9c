/**
 * The arithmetic of the "recent users" listing: ten users per page, the page's offset
 * into the `ORDER BY created_at DESC` result, the page count and the two navigation buttons.
 */
module Paging {
  import opened Numbers

  const UsersPerPage: nat := 10

  /** `offset = (page - 1) * users_per_page`. */
  function Offset(page: int): int {
    (page - 1) * UsersPerPage
  }

  /** `total_pages = (total_users + users_per_page - 1) // users_per_page`: the ceiling of total / 10. */
  function TotalPages(total: nat): (n: nat)
    ensures n * UsersPerPage >= total
    ensures n > 0 ==> (n - 1) * UsersPerPage < total
    ensures n == 0 <==> total == 0
  {
    (total + UsersPerPage - 1) / UsersPerPage
  }

  /** The "previous" button is shown iff `page > 1`. */
  predicate HasPrev(page: int) {
    page > 1
  }

  /** The "next" button is shown iff `page < total_pages`. */
  predicate HasNext(page: int, total: nat) {
    page < TotalPages(total)
  }

  /**
   * The rows `LIMIT 10 OFFSET (page - 1) * 10` returns from the ordered user list.
   * PostgreSQL rejects a negative offset, so the page is at least 1.
   */
  function PageRows<T>(rows: seq<T>, page: int): (r: seq<T>)
    requires page >= 1
    ensures |r| <= UsersPerPage
    ensures |r| == if Offset(page) >= |rows| then 0 else Min(UsersPerPage, |rows| - Offset(page))
    ensures forall k :: 0 <= k < |r| ==> r[k] == rows[Offset(page) + k]
  {
    rows[Min(Offset(page), |rows|)..Min(Offset(page) + UsersPerPage, |rows|)]
  }

  /** "Next" is offered exactly when users remain after the current page. */
  lemma NextIffMoreUsers(page: int, total: nat)
    requires page >= 1
    ensures HasNext(page, total) <==> Offset(page + 1) < total
  {
  }

  /** A page holds users exactly when it is one of the `total_pages` pages. */
  lemma PageNonEmptyIff<T>(rows: seq<T>, page: int)
    requires page >= 1
    ensures PageRows(rows, page) != [] <==> page <= TotalPages(|rows|)
  {
    if page <= TotalPages(|rows|) {
      assert Offset(page) < |rows|;
    }
  }

  /** From a page that exists, both buttons lead to pages that exist. */
  lemma ButtonsStayInRange(page: int, total: nat)
    requires 1 <= page <= TotalPages(total)
    ensures HasPrev(page) ==> 1 <= page - 1 <= TotalPages(total)
    ensures HasNext(page, total) ==> 1 <= page + 1 <= TotalPages(total)
  {
  }

  /** Pages 1..n laid end to end. */
  function FirstPages<T>(rows: seq<T>, n: nat): seq<T> {
    if n == 0 then [] else FirstPages(rows, n - 1) + PageRows(rows, n)
  }

  /** Following "next" from page 1 lists every user once, in order. */
  lemma PagesCoverAllUsers<T>(rows: seq<T>)
    ensures FirstPages(rows, TotalPages(|rows|)) == rows
  {
    FirstPagesArePrefix(rows, TotalPages(|rows|));
  }

  lemma {:induction false} FirstPagesArePrefix<T>(rows: seq<T>, n: nat)
    ensures FirstPages(rows, n) == rows[..Min(n * UsersPerPage, |rows|)]
  {
    if n > 0 {
      FirstPagesArePrefix(rows, n - 1);
      var lo := Min((n - 1) * UsersPerPage, |rows|);
      var hi := Min(n * UsersPerPage, |rows|);
      assert PageRows(rows, n) == rows[lo..hi];
      assert rows[..lo] + rows[lo..hi] == rows[..hi];
    }
  }
}
