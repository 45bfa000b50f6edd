/** The binary search for the longest excerpt that fits (aoms/recall.py _truncate_first_record). */
module Bisection {

  datatype Cut = Cut(block: string, excerpt: string)

  predicate Fits(count: string -> nat, budget: nat, size: nat, at: nat -> Cut, n: nat) {
    n <= size && count(at(n).block) <= budget
  }

  predicate EdgeAt(count: string -> nat, budget: nat, size: nat, at: nat -> Cut, n: nat) {
    Fits(count, budget, size, at, n) && !Fits(count, budget, size, at, n + 1)
  }

  /** A cut that fits while the next longer one does not; or the empty one, when the first already fails. */
  ghost predicate Found(count: string -> nat, budget: nat, size: nat, at: nat -> Cut, empty: Cut, best: Cut) {
    && count(best.block) <= budget
    && ((exists n: nat :: EdgeAt(count, budget, size, at, n) && best == at(n))
        || (best == empty && !Fits(count, budget, size, at, 0)))
  }

  /** Whatever is counted, growing or not, the search ends at an edge. */
  method Search(count: string -> nat, budget: nat, size: nat, at: nat -> Cut, empty: Cut) returns (best: Cut)
    requires count(empty.block) <= budget
    ensures Found(count, budget, size, at, empty, best)
  {
    var low: int, high: int := 0, size;
    best := empty;
    while low <= high
      invariant 0 <= low <= high + 1 <= size + 1
      invariant if low == 0 then best == empty else Fits(count, budget, size, at, low - 1) && best == at(low - 1)
      invariant !Fits(count, budget, size, at, high + 1)
      decreases high - low
    {
      var middle := (low + high) / 2;
      var cut := at(middle);
      if count(cut.block) <= budget {
        best := cut;
        low := middle + 1;
      } else {
        high := middle - 1;
      }
    }
    if low > 0 {
      assert EdgeAt(count, budget, size, at, low - 1);
    }
  }
}
