/** What the hashed perceptron learns: towards the outcome, and a branch with one outcome for good. */
module PerceptronLearning {
  import opened HashedPerceptron

  // ---------------------------------------------------------------- one outcome

  /** How many selected weights are not at the end that the outcome pulls to. */
  function Room(ws: seq<int>, taken: bool): (n: nat)
    ensures n <= |ws|
  {
    if ws == [] then 0
    else Room(ws[..|ws| - 1], taken) + if ws[|ws| - 1] == (if taken then 127 else -128) then 0 else 1
  }

  lemma {:induction false} MovedTotal(ws: seq<int>, vs: seq<int>, taken: bool)
    requires |ws| == |vs| && forall i :: 0 <= i < |ws| ==> vs[i] - ws[i] == Move(ws[i], taken)
    ensures Total(vs) == if taken then Total(ws) + Room(ws, taken) else Total(ws) - Room(ws, taken)
  {
    if ws != [] {
      MovedTotal(ws[..|ws| - 1], vs[..|vs| - 1], taken);
    }
  }

  /** Weights without room are all at one end. */
  lemma {:induction false} NoRoom(ws: seq<int>, taken: bool)
    requires forall i :: 0 <= i < |ws| ==> -128 <= ws[i] <= 127
    ensures -128 * |ws| <= Total(ws) <= 127 * |ws|
    ensures Room(ws, taken) == 0 ==> Total(ws) == if taken then 127 * |ws| else -128 * |ws|
  {
    if ws != [] {
      NoRoom(ws[..|ws| - 1], taken);
    }
  }

  /** The weights that this address and history selected, after the outcome. */
  ghost function After(m: Model, n: Model, pc: nat): (ws: seq<int>)
    requires Fits(m) && Fits(n)
    ensures |ws| == NTABLES
  {
    seq(NTABLES, i requires 0 <= i < NTABLES => n.weights[i][Place(pc, m.history, i)])
  }

  /**
   * Learning goes towards the outcome: the sum of the selected weights rises on a taken branch, and falls on one not
   * taken, by the number of weights that are not at that end; only a misprediction or a weak prediction moves it.
   */
  lemma LearnsTowardsOutcome(m: Model, n: Model, pc: nat, taken: bool)
    requires Fits(m) && Fits(n) && Learned(m, n, pc, taken)
    ensures var y, room: int := Output(m, pc), Room(Selected(m, pc), taken);
            var keeps := taken == (y >= 1) && (y >= m.theta || -y >= m.theta);
            && Total(After(m, n, pc)) == (if keeps then y else if taken then y + room else y - room)
            && (taken != (y >= 1) ==> room > 0)
  {
    var ws, vs := Selected(m, pc), After(m, n, pc);
    NoRoom(ws, taken);
    if Trains(Total(ws), m.theta, taken) {
      assert forall i :: 0 <= i < NTABLES ==> vs[i] - ws[i] == Move(ws[i], taken);
      hide Learned, ThresholdMoves, Total, Room, Place, Move;
      MovedTotal(ws, vs, taken);
    } else {
      hide ThresholdMoves, Total, Room, Place, Move;
      assert vs == ws;
    }
  }

  // ---------------------------------------------------------------- one branch with one outcome

  /** The states around the outcomes of one branch that always goes the same way. */
  ghost predicate Repeats(ms: seq<Model>, pc: nat, taken: bool) {
    && (forall k :: 0 <= k < |ms| ==> Fits(ms[k]))
    && forall k, l :: 0 <= k && l == k + 1 && l < |ms| ==> Learned(ms[k], ms[l], pc, taken)
  }

  lemma {:induction false} HistoryFills(ms: seq<Model>, pc: nat, taken: bool, k: nat)
    requires Repeats(ms, pc, taken) && k < |ms|
    ensures |ms[k].history| == HISTORY
    ensures forall j :: 0 <= j < HISTORY && j < k ==> ms[k].history[j] == taken
  {
    hide ThresholdMoves, Trains, Move, Output;
    if k > 0 {
      HistoryFills(ms, pc, taken, k - 1);
      assert Learned(ms[k - 1], ms[k], pc, taken);
    }
  }

  /** Once the history is nothing but this outcome, the same weights are selected for ever. */
  lemma SameWeights(ms: seq<Model>, pc: nat, taken: bool, k: nat)
    requires Repeats(ms, pc, taken) && HISTORY <= k && k + 1 < |ms|
    ensures Fits(ms[k]) && Fits(ms[k + 1]) && Learned(ms[k], ms[k + 1], pc, taken)
    ensures After(ms[k], ms[k + 1], pc) == Selected(ms[k + 1], pc)
  {
    HistoryFills(ms, pc, taken, k);
    HistoryFills(ms, pc, taken, k + 1);
    assert Learned(ms[k], ms[k + 1], pc, taken);
    hide Repeats, Learned;
    assert ms[k].history == ms[k + 1].history;
  }

  /** How far the sum has come after `j` outcomes. */
  predicate Near(y: int, taken: bool, j: int) {
    if taken then y >= 1 || y >= j - 2048 else y <= 0 || y <= 2048 - j
  }

  lemma ClimbsOne(m: Model, n: Model, pc: nat, taken: bool, j: nat)
    requires Fits(m) && Fits(n) && Learned(m, n, pc, taken) && After(m, n, pc) == Selected(n, pc)
    requires Near(Output(m, pc), taken, j)
    ensures Near(Output(n, pc), taken, j + 1)
  {
    LearnsTowardsOutcome(m, n, pc, taken);
    hide Fits, Learned, Selected, Total, Room, After;
  }

  lemma StartsNear(m: Model, pc: nat, taken: bool)
    requires Fits(m)
    ensures Near(Output(m, pc), taken, 0)
  {
    NoRoom(Selected(m, pc), taken);
    hide Fits, Selected, Total;
  }

  lemma StateFits(ms: seq<Model>, pc: nat, taken: bool, k: nat)
    requires Repeats(ms, pc, taken) && k < |ms|
    ensures Fits(ms[k])
  {
    hide Fits, Learned;
  }

  /** From then on every wrong prediction brings the sum closer to the right one, and nothing takes it away again. */
  lemma {:induction false} Climbs(ms: seq<Model>, pc: nat, taken: bool, k: nat)
    requires Repeats(ms, pc, taken) && HISTORY <= k < |ms|
    ensures Fits(ms[k]) && Near(Output(ms[k], pc), taken, k - HISTORY)
  {
    hide *;
    StateFits(ms, pc, taken, k);
    if k == HISTORY {
      StartsNear(ms[k], pc, taken);
    } else {
      Climbs(ms, pc, taken, k - 1);
      SameWeights(ms, pc, taken, k - 1);
      ClimbsOne(ms[k - 1], ms[k], pc, taken, k - 1 - HISTORY);
    }
  }

  /**
   * A branch that always goes the same way is learned for good: after the history has filled up, and at most 2049
   * outcomes more, whatever the weights and the threshold were, every prediction is right.
   */
  lemma LearnsConstant(ms: seq<Model>, pc: nat, taken: bool, k: nat)
    requires Repeats(ms, pc, taken) && HISTORY + 2049 <= k < |ms|
    ensures Fits(ms[k]) && (Output(ms[k], pc) >= 1 <==> taken)
  {
    Climbs(ms, pc, taken, k);
    hide Fits, Repeats, Output;
  }

  // ---------------------------------------------------------------- the threshold over a run

  datatype Branch = Branch(pc: nat, taken: bool)

  ghost predicate Runs(ms: seq<Model>, branches: seq<Branch>) {
    && |ms| == |branches| + 1 && (forall k :: 0 <= k < |ms| ==> Fits(ms[k]))
    && forall k :: 0 <= k < |branches| ==> Learned(ms[k], ms[k + 1], branches[k].pc, branches[k].taken)
  }

  /** Mispredictions less the correct predictions below the threshold, of the first `k` branches. */
  ghost function Net(ms: seq<Model>, branches: seq<Branch>, k: nat): int
    requires Runs(ms, branches) && k <= |branches|
  {
    if k == 0 then 0
    else
      var m, b := ms[k - 1], branches[k - 1];
      var y := Output(m, b.pc);
      Net(ms, branches, k - 1) + if b.taken != (y >= 1) then 1 else if -m.theta < y < m.theta then -1 else 0
  }

  /** On every run the threshold is this difference in steps of eighteen, and its counter is the rest. */
  lemma {:induction false} ThresholdIsNet(ms: seq<Model>, branches: seq<Branch>, k: nat)
    requires Runs(ms, branches) && k <= |branches|
    ensures Fits(ms[0]) && Fits(ms[k]) && -18 < ms[k].tc < 18
    ensures 18 * ms[k].theta + ms[k].tc == 18 * ms[0].theta + ms[0].tc + Net(ms, branches, k)
  {
    hide Output, Move, Trains;
    if k > 0 {
      ThresholdIsNet(ms, branches, k - 1);
      assert Learned(ms[k - 1], ms[k], branches[k - 1].pc, branches[k - 1].taken);
    }
  }
}
