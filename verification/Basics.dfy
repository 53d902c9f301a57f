/** What several modules need. */
module Basics {
  const PAGE_SIZE: int := 4096
  const WORD: int := 0x1_0000_0000      // one more than a 32-bit word holds

  function Min(a: int, b: int): int { if a < b then a else b }

  function Max(a: int, b: int): int { if a < b then b else a }

  predicate Distinct(s: seq<int>) {
    forall i, j :: 0 <= i < j < |s| ==> s[i] != s[j]
  }
}
