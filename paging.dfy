/** Spring Data paging as the services use it: PageRequest.of(index, size)
    with the configured page size. */
module Paging {
  /** spring.paging.page-size, default 10. */
  const PageSize: nat := 10

  /** The rows of page `index` of `all`, as PageRequest.of(index, PageSize) cuts
      them; an index past the end gives an empty page. */
  function PageContent<T>(all: seq<T>, index: nat): (r: seq<T>)
    ensures |r| <= PageSize
    ensures forall k :: 0 <= k < |r| ==> index * PageSize + k < |all| && r[k] == all[index * PageSize + k]
    ensures index * PageSize + PageSize <= |all| ==> |r| == PageSize
    ensures |all| <= index * PageSize ==> r == []
  {
    var lo := index * PageSize;
    if |all| <= lo then []
    else if |all| <= lo + PageSize then all[lo..]
    else all[lo..lo + PageSize]
  }
}
