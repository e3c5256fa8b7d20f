/** The bounded edit distance behind fuzzy token search
    (`boundedDamerauLevenshtein`, application/catalog/search.go).
 */
module EditDistance {

  function Min(a: int, b: int): int
  {
    if a <= b then a else b
  }

  /** The optimal-string-alignment distance of the first `i` runes of `left` and the
      first `j` runes of `right`. */
  function Osa(left: string, right: string, i: nat, j: nat): nat
    requires i <= |left| && j <= |right|
    decreases i + j
  {
    if i == 0 then j
    else if j == 0 then i
    else
      var cost := if left[i - 1] == right[j - 1] then 0 else 1;
      var best := Min(
        Osa(left, right, i - 1, j) + 1,
        Min(Osa(left, right, i, j - 1) + 1, Osa(left, right, i - 1, j - 1) + cost));
      if Swappable(left, right, i, j) then Min(best, Osa(left, right, i - 2, j - 2) + 1) else best
  }

  predicate Swappable(left: string, right: string, i: nat, j: nat)
    requires i <= |left| && j <= |right|
  {
    i > 1 && j > 1 && left[i - 1] == right[j - 2] && left[i - 2] == right[j - 1]
  }

  function Distance(left: string, right: string): nat
  {
    Osa(left, right, |left|, |right|)
  }

  // ---------------------------------------------------------------- what the distance means

  /** The edits of an alignment, last one outermost. Edits do not overlap: no rune is
      touched twice. */
  datatype Script =
    | Done
    | Keep(rest: Script)
    | Replace(rest: Script)
    | Insert(rest: Script)
    | Delete(rest: Script)
    | Swap(rest: Script)

  /** The script turns the first `i` runes of `left` into the first `j` runes of `right`. */
  predicate Turns(script: Script, left: string, right: string, i: int, j: int)
    requires i <= |left| && j <= |right|
  {
    match script
    case Done => i == 0 && j == 0
    case Keep(rest) => i > 0 && j > 0 && left[i - 1] == right[j - 1] && Turns(rest, left, right, i - 1, j - 1)
    case Replace(rest) => i > 0 && j > 0 && Turns(rest, left, right, i - 1, j - 1)
    case Insert(rest) => j > 0 && Turns(rest, left, right, i, j - 1)
    case Delete(rest) => i > 0 && Turns(rest, left, right, i - 1, j)
    case Swap(rest) =>
      && i > 1 && j > 1 && left[i - 1] == right[j - 2] && left[i - 2] == right[j - 1]
      && Turns(rest, left, right, i - 2, j - 2)
  }

  function Cost(script: Script): nat
  {
    match script
    case Done => 0
    case Keep(rest) => Cost(rest)
    case _ => 1 + Cost(script.rest)
  }

  /** No alignment is cheaper than the distance ... */
  lemma {:induction false} NoScriptIsCheaper(script: Script, left: string, right: string, i: nat, j: nat)
    requires i <= |left| && j <= |right| && Turns(script, left, right, i, j)
    ensures Osa(left, right, i, j) <= Cost(script)
  {
    match script {
      case Done =>
      case Keep(rest) => NoScriptIsCheaper(rest, left, right, i - 1, j - 1);
      case Replace(rest) => NoScriptIsCheaper(rest, left, right, i - 1, j - 1);
      case Insert(rest) => NoScriptIsCheaper(rest, left, right, i, j - 1);
      case Delete(rest) => NoScriptIsCheaper(rest, left, right, i - 1, j);
      case Swap(rest) => NoScriptIsCheaper(rest, left, right, i - 2, j - 2);
    }
  }

  /** Which neighbour a cell of the distance table takes its value from. */
  lemma SomeNeighbour(left: string, right: string, i: nat, j: nat)
    requires 0 < i <= |left| && 0 < j <= |right|
    ensures
      || Osa(left, right, i, j) == Osa(left, right, i - 1, j) + 1
      || Osa(left, right, i, j) == Osa(left, right, i, j - 1) + 1
      || Osa(left, right, i, j) == Osa(left, right, i - 1, j - 1) + (if left[i - 1] == right[j - 1] then 0 else 1)
      || (Swappable(left, right, i, j) && Osa(left, right, i, j) == Osa(left, right, i - 2, j - 2) + 1)
  {
  }

  /** ... and some alignment costs exactly that. */
  lemma {:induction false} BestScript(left: string, right: string, i: nat, j: nat) returns (script: Script)
    requires i <= |left| && j <= |right|
    ensures Turns(script, left, right, i, j) && Cost(script) == Osa(left, right, i, j)
    decreases i + j, 2
  {
    if i == 0 && j == 0 {
      script := Done;
    } else if i == 0 {
      script := BestInsert(left, right, i, j);
    } else if j == 0 {
      script := BestDelete(left, right, i, j);
    } else {
      script := BestScriptBetween(left, right, i, j);
    }
  }

  lemma {:induction false} BestDelete(left: string, right: string, i: nat, j: nat) returns (script: Script)
    requires 0 < i <= |left| && j <= |right| && Osa(left, right, i, j) == Osa(left, right, i - 1, j) + 1
    ensures Turns(script, left, right, i, j) && Cost(script) == Osa(left, right, i, j)
    decreases i + j, 0
  {
    var rest := BestScript(left, right, i - 1, j);
    script := Delete(rest);
  }

  lemma {:induction false} BestInsert(left: string, right: string, i: nat, j: nat) returns (script: Script)
    requires i <= |left| && 0 < j <= |right| && Osa(left, right, i, j) == Osa(left, right, i, j - 1) + 1
    ensures Turns(script, left, right, i, j) && Cost(script) == Osa(left, right, i, j)
    decreases i + j, 0
  {
    var rest := BestScript(left, right, i, j - 1);
    script := Insert(rest);
  }

  lemma {:induction false} BestReplace(left: string, right: string, i: nat, j: nat) returns (script: Script)
    requires 0 < i <= |left| && 0 < j <= |right|
    requires Osa(left, right, i, j) == Osa(left, right, i - 1, j - 1) + (if left[i - 1] == right[j - 1] then 0 else 1)
    ensures Turns(script, left, right, i, j) && Cost(script) == Osa(left, right, i, j)
    decreases i + j, 0
  {
    var rest := BestScript(left, right, i - 1, j - 1);
    script := if left[i - 1] == right[j - 1] then Keep(rest) else Replace(rest);
  }

  lemma {:induction false} BestSwap(left: string, right: string, i: nat, j: nat) returns (script: Script)
    requires i <= |left| && j <= |right| && Swappable(left, right, i, j)
    requires Osa(left, right, i, j) == Osa(left, right, i - 2, j - 2) + 1
    ensures Turns(script, left, right, i, j) && Cost(script) == Osa(left, right, i, j)
    decreases i + j, 0
  {
    var rest := BestScript(left, right, i - 2, j - 2);
    script := Swap(rest);
  }

  /** The value of a cell comes from one of its neighbours, and so does its script. */
  lemma {:induction false} BestScriptBetween(left: string, right: string, i: nat, j: nat) returns (script: Script)
    requires 0 < i <= |left| && 0 < j <= |right|
    ensures Turns(script, left, right, i, j) && Cost(script) == Osa(left, right, i, j)
    decreases i + j, 1
  {
    SomeNeighbour(left, right, i, j);
    if Osa(left, right, i, j) == Osa(left, right, i - 1, j) + 1 {
      script := BestDelete(left, right, i, j);
    } else if Osa(left, right, i, j) == Osa(left, right, i, j - 1) + 1 {
      script := BestInsert(left, right, i, j);
    } else if Osa(left, right, i, j) == Osa(left, right, i - 1, j - 1) + (if left[i - 1] == right[j - 1] then 0 else 1) {
      script := BestReplace(left, right, i, j);
    } else {
      script := BestSwap(left, right, i, j);
    }
  }

  /** The distance is the least cost of an alignment. */
  lemma DistanceIsLeastCost(left: string, right: string)
    ensures exists script ::
      Turns(script, left, right, |left|, |right|) && Cost(script) == Distance(left, right)
    ensures forall script ::
      Turns(script, left, right, |left|, |right|) ==> Distance(left, right) <= Cost(script)
  {
    var script := BestScript(left, right, |left|, |right|);
    forall s | Turns(s, left, right, |left|, |right|) ensures Distance(left, right) <= Cost(s) {
      NoScriptIsCheaper(s, left, right, |left|, |right|);
    }
  }

  function Reversed(script: Script): Script
  {
    match script
    case Done => Done
    case Keep(rest) => Keep(Reversed(rest))
    case Replace(rest) => Replace(Reversed(rest))
    case Insert(rest) => Delete(Reversed(rest))
    case Delete(rest) => Insert(Reversed(rest))
    case Swap(rest) => Swap(Reversed(rest))
  }

  lemma {:induction false} ReversedTurnsBack(script: Script, left: string, right: string, i: nat, j: nat)
    requires i <= |left| && j <= |right| && Turns(script, left, right, i, j)
    ensures Turns(Reversed(script), right, left, j, i) && Cost(Reversed(script)) == Cost(script)
  {
    match script {
      case Done =>
      case Keep(rest) => ReversedTurnsBack(rest, left, right, i - 1, j - 1);
      case Replace(rest) => ReversedTurnsBack(rest, left, right, i - 1, j - 1);
      case Insert(rest) => ReversedTurnsBack(rest, left, right, i, j - 1);
      case Delete(rest) => ReversedTurnsBack(rest, left, right, i - 1, j);
      case Swap(rest) => ReversedTurnsBack(rest, left, right, i - 2, j - 2);
    }
  }

  lemma DistanceNotMoreThanReverse(left: string, right: string)
    ensures Distance(left, right) <= Distance(right, left)
  {
    var script := BestScript(right, left, |right|, |left|);
    ReversedTurnsBack(script, right, left, |right|, |left|);
    NoScriptIsCheaper(Reversed(script), left, right, |left|, |right|);
  }

  /** The distance is symmetric: any alignment can be read backwards. */
  lemma DistanceSymmetric(left: string, right: string)
    ensures Distance(left, right) == Distance(right, left)
  {
    DistanceNotMoreThanReverse(left, right);
    DistanceNotMoreThanReverse(right, left);
  }

  /** Every edit changes the length by at most one. */
  lemma {:induction false} OsaAtLeastLengthDifference(left: string, right: string, i: nat, j: nat)
    requires i <= |left| && j <= |right|
    ensures i - j <= Osa(left, right, i, j) && j - i <= Osa(left, right, i, j)
    decreases i + j
  {
    if i > 0 && j > 0 {
      OsaAtLeastLengthDifference(left, right, i - 1, j);
      OsaAtLeastLengthDifference(left, right, i, j - 1);
      OsaAtLeastLengthDifference(left, right, i - 1, j - 1);
      if i > 1 && j > 1 {
        OsaAtLeastLengthDifference(left, right, i - 2, j - 2);
      }
    }
  }

  lemma {:induction false} OsaZero(left: string, right: string, i: nat, j: nat)
    requires i <= |left| && j <= |right| && Osa(left, right, i, j) == 0
    ensures left[..i] == right[..j]
    decreases i
  {
    if i > 0 && j > 0 {
      OsaZero(left, right, i - 1, j - 1);
      assert left[..i] == left[..i - 1] + [left[i - 1]];
      assert right[..j] == right[..j - 1] + [right[j - 1]];
    }
  }

  /** Only equal tokens are at distance zero. */
  lemma DistanceZero(left: string, right: string)
    ensures Distance(left, right) == 0 <==> left == right
  {
    assert left[..|left|] == left && right[..|right|] == right;
    if Distance(left, right) == 0 {
      OsaZero(left, right, |left|, |right|);
    }
    if left == right {
      SelfDistance(left, |left|);
    }
  }

  lemma {:induction false} SelfDistance(text: string, i: nat)
    requires i <= |text|
    ensures Osa(text, text, i, i) == 0
  {
    if i > 0 {
      SelfDistance(text, i - 1);
    }
  }

  // ---------------------------------------------------------------- the rolling rows

  /** `row` is row `i` of the distance table. */
  ghost predicate IsRow(left: string, right: string, i: nat, row: array<int>)
    requires i <= |left|
    reads row
  {
    row.Length == |right| + 1 && forall j :: 0 <= j <= |right| ==> row[j] == Osa(left, right, i, j)
  }

  /** Whatever the limit, a pair matches exactly when its distance is within it; a pair
      rejected by its lengths alone gets the distance `limit + 1`, any other its own. */
  method BoundedDamerauLevenshtein(left: string, right: string, limit: int) returns (distance: int, matched: bool)
    ensures matched <==> Distance(left, right) <= limit
    ensures distance ==
      if |left| - |right| > limit || |left| - |right| < -limit then limit + 1 else Distance(left, right)
  {
    OsaAtLeastLengthDifference(left, right, |left|, |right|);
    var difference := |left| - |right|;
    if difference > limit || difference < -limit {
      return limit + 1, false;
    }
    var previousPrevious := new int[|right| + 1](_ => 0);
    var previous := new int[|right| + 1](j => j);
    assert IsRow(left, right, 0, previous);
    var leftIndex := 1;
    while leftIndex <= |left|
      invariant 1 <= leftIndex <= |left| + 1
      invariant previous.Length == previousPrevious.Length == |right| + 1
      invariant IsRow(left, right, leftIndex - 1, previous)
      invariant leftIndex > 1 ==> IsRow(left, right, leftIndex - 2, previousPrevious)
    {
      var current := FillRow(left, right, leftIndex, previousPrevious, previous);
      previousPrevious, previous := previous, current;
      leftIndex := leftIndex + 1;
    }
    distance := previous[|right|];
    matched := distance <= limit;
  }

  /** Lines 536-547: one cell from its neighbours above, to the left, above left, and
      two above and two left. */
  function Cell(left: string, right: string, i: nat, j: nat, up: int, side: int, diagonal: int, jump: int): (d: int)
    requires 1 <= i <= |left| && 1 <= j <= |right|
    requires up == Osa(left, right, i - 1, j) && side == Osa(left, right, i, j - 1)
    requires diagonal == Osa(left, right, i - 1, j - 1)
    requires i > 1 && j > 1 ==> jump == Osa(left, right, i - 2, j - 2)
    ensures d == Osa(left, right, i, j)
  {
    var cost := if left[i - 1] == right[j - 1] then 0 else 1;
    var best := Min(up + 1, Min(side + 1, diagonal + cost));
    if i > 1 && j > 1 && left[i - 1] == right[j - 2] && left[i - 2] == right[j - 1] then Min(best, jump + 1) else best
  }

  method FillCell(
    left: string, right: string, i: nat, j: nat,
    previousPrevious: array<int>, previous: array<int>, current: array<int>)
    requires 1 <= i <= |left| && 1 <= j <= |right|
    requires current != previous && current != previousPrevious && current.Length == |right| + 1
    requires previousPrevious.Length == |right| + 1
    requires IsRow(left, right, i - 1, previous) && (i > 1 ==> IsRow(left, right, i - 2, previousPrevious))
    requires current[j - 1] == Osa(left, right, i, j - 1)
    modifies current
    ensures current[j] == Osa(left, right, i, j)
    ensures forall k :: 0 <= k < current.Length && k != j ==> current[k] == old(current[k])
  {
    var jump := if i > 1 && j > 1 then previousPrevious[j - 2] else 0;
    current[j] := Cell(left, right, i, j, previous[j], current[j - 1], previous[j - 1], jump);
  }

  /** Lines 533-548: one row from the two before it. */
  method FillRow(left: string, right: string, leftIndex: nat, previousPrevious: array<int>, previous: array<int>)
    returns (current: array<int>)
    requires 1 <= leftIndex <= |left|
    requires previous.Length == previousPrevious.Length == |right| + 1
    requires IsRow(left, right, leftIndex - 1, previous)
    requires leftIndex > 1 ==> IsRow(left, right, leftIndex - 2, previousPrevious)
    ensures fresh(current) && current.Length == |right| + 1
    ensures IsRow(left, right, leftIndex, current)
  {
    current := new int[|right| + 1];
    current[0] := leftIndex;
    var rightIndex := 1;
    while rightIndex <= |right|
      invariant 1 <= rightIndex <= |right| + 1
      invariant forall j :: 0 <= j < rightIndex ==> current[j] == Osa(left, right, leftIndex, j)
    {
      FillCell(left, right, leftIndex, rightIndex, previousPrevious, previous, current);
      rightIndex := rightIndex + 1;
    }
  }
}
