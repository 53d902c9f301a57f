/** get_free_page as the callers that keep no counts of their own see it: pages are free or in use. */
module FreePages {
  // The last page not in use, below k; 0 if there is none.
  function LastFree(pages: seq<bool>, k: int): (p: int)
    requires 0 <= k <= |pages|
    ensures p == 0 || (0 < p < k && !pages[p])
    ensures p == 0 ==> forall q :: 0 < q < k ==> pages[q]
  {
    if k <= 1 then 0 else if !pages[k - 1] then k - 1 else LastFree(pages, k - 1)
  }

  function FreePage(pages: seq<bool>): (p: int)
    ensures p == 0 || (0 < p < |pages| && !pages[p])
    ensures p == 0 ==> forall q :: 0 < q < |pages| ==> pages[q]
  {
    LastFree(pages, |pages|)
  }

  method FindFreePage(used: array<bool>) returns (p: int)
    ensures p == FreePage(used[..])
  {
    p := used.Length;
    while p > 1 && used[p - 1]
      invariant 0 <= p <= used.Length && LastFree(used[..], p) == FreePage(used[..])
    {
      p := p - 1;
    }
    p := if p <= 1 then 0 else p - 1;
  }
}
