/**
  The magnitude-to-colour classifier `markerColor` (static/js/logic.js), used
  both for the fill colour of every earthquake marker and for the legend
  swatches.
 */
module Colors {

  /** The seven colour names `markerColor` can return, in increasing severity. */
  datatype Color = White | Purple | Blue | Green | Yellow | Orange | Red

  /** One end of a magnitude interval; `Unbounded` stands for minus or plus infinity. */
  datatype Bound = Unbounded | At(value: real)

  /** The CSS colour name the source returns for a colour. */
  function Name(c: Color): string {
    match c
    case White => "White"
    case Purple => "Purple"
    case Blue => "Blue"
    case Green => "Green"
    case Yellow => "Yellow"
    case Orange => "Orange"
    case Red => "Red"
  }

  /** Severity rank: White = 0 < Purple < ... < Red = 6. */
  function Rank(c: Color): nat {
    match c
    case White => 0
    case Purple => 1
    case Blue => 2
    case Green => 3
    case Yellow => 4
    case Orange => 5
    case Red => 6
  }

  /** The bucket table: each colour covers the half-open interval (Lower, Upper]. */
  function Lower(c: Color): Bound {
    match c
    case White => Unbounded
    case Purple => At(0.0)
    case Blue => At(1.0)
    case Green => At(2.0)
    case Yellow => At(3.0)
    case Orange => At(4.0)
    case Red => At(5.0)
  }

  function Upper(c: Color): Bound {
    match c
    case White => At(0.0)
    case Purple => At(1.0)
    case Blue => At(2.0)
    case Green => At(3.0)
    case Yellow => At(4.0)
    case Orange => At(5.0)
    case Red => Unbounded
  }

  /** Magnitude `m` lies in the bucket of colour `c`: Lower(c) < m <= Upper(c). */
  predicate InBucket(m: real, c: Color) {
    (Lower(c).Unbounded? || Lower(c).value < m) &&
    (Upper(c).Unbounded? || m <= Upper(c).value)
  }

  /** `markerColor(magnitude)`: a chain of strict `>` tests against 5, 4, 3, 2, 1, 0. */
  function MarkerColor(magnitude: real): (c: Color)
    ensures InBucket(magnitude, c)
  {
    if magnitude > 5.0 then Red
    else if magnitude > 4.0 then Orange
    else if magnitude > 3.0 then Yellow
    else if magnitude > 2.0 then Green
    else if magnitude > 1.0 then Blue
    else if magnitude > 0.0 then Purple
    else White
  }

  /** The buckets partition the reals: `m` is in the bucket of exactly the colour
      `MarkerColor` returns, so no other colour's interval contains it. */
  lemma BucketsPartition(m: real, c: Color)
    ensures InBucket(m, c) <==> c == MarkerColor(m)
  {
  }

  /** The thresholds of the comparison chain. */
  const Thresholds: seq<real> := [0.0, 1.0, 2.0, 3.0, 4.0, 5.0]

  /** How many of the thresholds `ts` lie strictly below `m`. */
  function CountBelow(ts: seq<real>, m: real): (n: nat)
    ensures n <= |ts|
  {
    if ts == [] then 0 else (if ts[0] < m then 1 else 0) + CountBelow(ts[1..], m)
  }

  lemma {:induction false} CountBelowMonotone(ts: seq<real>, m1: real, m2: real)
    requires m1 <= m2
    ensures CountBelow(ts, m1) <= CountBelow(ts, m2)
  {
    if ts != [] {
      CountBelowMonotone(ts[1..], m1, m2);
    }
  }

  /** Independent reading of the classifier: the severity rank of the colour is the
      number of thresholds the magnitude strictly exceeds. */
  lemma RankCountsThresholds(m: real)
    ensures Rank(MarkerColor(m)) == CountBelow(Thresholds, m)
  {
    var ts := Thresholds;
    assert ts[1..] == [1.0, 2.0, 3.0, 4.0, 5.0];
    assert ts[1..][1..] == [2.0, 3.0, 4.0, 5.0];
    assert ts[1..][1..][1..] == [3.0, 4.0, 5.0];
    assert ts[1..][1..][1..][1..] == [4.0, 5.0];
    assert ts[1..][1..][1..][1..][1..] == [5.0];
    assert CountBelow([5.0], m) == if 5.0 < m then 1 else 0 by {
      assert [5.0][1..] == [];
    }
    assert CountBelow([4.0, 5.0], m) == (if 4.0 < m then 1 else 0) + CountBelow([5.0], m);
    assert CountBelow([3.0, 4.0, 5.0], m) == (if 3.0 < m then 1 else 0) + CountBelow([4.0, 5.0], m);
    assert CountBelow([2.0, 3.0, 4.0, 5.0], m) == (if 2.0 < m then 1 else 0) + CountBelow([3.0, 4.0, 5.0], m);
    assert CountBelow([1.0, 2.0, 3.0, 4.0, 5.0], m) == (if 1.0 < m then 1 else 0) + CountBelow([2.0, 3.0, 4.0, 5.0], m);
  }

  /** A larger magnitude never gets a less severe colour. */
  lemma MarkerColorMonotone(m1: real, m2: real)
    requires m1 <= m2
    ensures Rank(MarkerColor(m1)) <= Rank(MarkerColor(m2))
  {
    RankCountsThresholds(m1);
    RankCountsThresholds(m2);
    CountBelowMonotone(Thresholds, m1, m2);
  }

  /** Distinct colours have distinct names, so the returned string determines the bucket. */
  lemma NameInjective(c1: Color, c2: Color)
    requires Name(c1) == Name(c2)
    ensures c1 == c2
  {
  }

  /** The boundary cases: the buckets are closed on the upper side. */
  lemma MarkerColorBoundaries()
    ensures MarkerColor(5.0) == Orange && MarkerColor(5.01) == Red
    ensures MarkerColor(4.0) == Yellow && MarkerColor(1.0) == Purple
    ensures MarkerColor(0.0) == White && MarkerColor(-1.0) == White
  {
  }
}
