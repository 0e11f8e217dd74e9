/** The random die source. `secrets.randbelow(sides)` is the one foreign call
    of the engine; it is modelled by an arbitrary natural number `draw`
    reduced modulo `sides`, which reaches every value of [0, sides). A
    stream `draws` supplies the k-th draw of a roll as draws(k). */
module DieSource {

  /** roll_single_die: one face of a die with `sides` faces. */
  function RollSingleDie(sides: nat, draw: nat): (face: int)
    requires 1 <= sides
    ensures 1 <= face <= sides
  {
    1 + draw % sides
  }

  /** The oracle loses no behaviour: every face can come up. */
  lemma {:induction false} EveryFaceReachable(sides: nat, face: int)
    requires 1 <= face <= sides
    ensures RollSingleDie(sides, face - 1) == face
  {
    assert (face - 1) % sides == face - 1;
  }

  /** `count` dice of `sides` faces, the j-th taking draw number start + j. */
  function RollPool(count: nat, sides: nat, draws: nat -> nat, start: nat): (rolls: seq<int>)
    requires 1 <= sides
    ensures |rolls| == count
    ensures forall j :: 0 <= j < count ==> 1 <= rolls[j] <= sides
  {
    var rolls := seq(count, j requires 0 <= j < count => RollSingleDie(sides, draws(start + j)));
    assert forall j :: 0 <= j < count ==> rolls[j] == RollSingleDie(sides, draws(start + j));
    rolls
  }

  /** Python's sum() over a list of integers. */
  function Sum(s: seq<int>): int
    decreases |s|
  {
    if s == [] then 0 else s[0] + Sum(s[1..])
  }

  /** [r + m for r in rolls]. */
  function AddToEach(rolls: seq<int>, m: int): (r: seq<int>)
    ensures |r| == |rolls|
  {
    seq(|rolls|, j requires 0 <= j < |rolls| => rolls[j] + m)
  }

  /** Adding m to every die adds m once per die to the sum. */
  lemma {:induction false} SumAddToEach(rolls: seq<int>, m: int)
    ensures Sum(AddToEach(rolls, m)) == Sum(rolls) + m * |rolls|
    decreases |rolls|
  {
    if rolls != [] {
      assert AddToEach(rolls, m)[1..] == AddToEach(rolls[1..], m);
      SumAddToEach(rolls[1..], m);
    }
  }

  /** A sum of n values, each within [lo, hi], lies within [n*lo, n*hi]. */
  lemma {:induction false} SumBounds(s: seq<int>, lo: int, hi: int)
    requires forall j :: 0 <= j < |s| ==> lo <= s[j] <= hi
    ensures |s| * lo <= Sum(s) <= |s| * hi
    decreases |s|
  {
    if s != [] {
      SumBounds(s[1..], lo, hi);
    }
  }
}
