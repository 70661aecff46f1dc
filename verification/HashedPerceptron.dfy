/** The hashed perceptron branch predictor: 20 twelve-bit history words refine one register of 240 outcomes. */
module HashedPerceptron {
  import opened Bits

  const NTABLES: nat := 16
  const LOG_TABLE_SIZE: nat := 12
  const TABLE_SIZE: nat := 4096
  const WORDS: nat := 20
  const HISTORY: nat := 240
  const SPEED: int := 18
  const LENGTHS: seq<nat> := [0, 3, 4, 6, 8, 10, 14, 19, 26, 36, 49, 67, 91, 125, 170, 232]

  // ---------------------------------------------------------------- words of bits

  /** The number whose lowest bit is the first outcome. */
  function Value(bits: seq<bool>): (v: nat)
    ensures v < Pow2(|bits|)
  {
    if bits == [] then 0 else (if bits[0] then 1 else 0) + 2 * Value(bits[1..])
  }

  lemma TwelveBits()
    ensures Pow2(12) == TABLE_SIZE && Pow2(11) == 2048
  {
    assert Pow2(0) == 1 && Pow2(2) == 4 && Pow2(4) == 16 && Pow2(6) == 64 && Pow2(8) == 256 && Pow2(10) == 1024;
  }

  lemma {:induction false} ValueAppend(bits: seq<bool>, b: bool)
    ensures Value(bits + [b]) == Value(bits) + if b then Pow2(|bits|) else 0
  {
    if bits != [] {
      assert (bits + [b])[1..] == bits[1..] + [b];
      ValueAppend(bits[1..], b);
    }
  }

  /** Masking keeps the first outcomes. */
  lemma {:induction false} ValueMask(bits: seq<bool>, m: nat)
    requires m <= |bits|
    ensures Value(bits) % Pow2(m) == Value(bits[..m])
  {
    if m > 0 {
      ValueMask(bits[1..], m - 1);
      assert bits[..m][1..] == bits[1..][..m - 1];
      ModDoubles(if bits[0] then 1 else 0, Value(bits[1..]), Pow2(m - 1));
    }
  }

  lemma CarryOut(v: nat, a: nat, bit: nat, top: bool, shifted: nat)
    requires a < 2048 && bit < 2 && v == a + (if top then 2048 else 0) && shifted == 2 * v + bit
    ensures shifted % TABLE_SIZE == bit + 2 * a && (shifted >= TABLE_SIZE <==> top)
  {
    DivUnique(shifted, TABLE_SIZE, if top then 1 else 0, bit + 2 * a);
  }

  lemma SplitTop(bits: seq<bool>, b: bool)
    requires |bits| == LOG_TABLE_SIZE
    ensures Value(bits) == Value(bits[..11]) + if bits[11] then 2048 else 0
    ensures Value(bits[..11]) < 2048
    ensures Value([b] + bits[..11]) == (if b then 1 else 0) + 2 * Value(bits[..11])
  {
    var low := bits[..11];
    TwelveBits();
    assert |low| == 11 && bits == low + [bits[11]];
    hide Pow2;
    ValueAppend(low, bits[11]);
    ValuePrepend(b, low);
    hide Value;
  }

  lemma ValuePrepend(b: bool, bits: seq<bool>)
    ensures Value([b] + bits) == (if b then 1 else 0) + 2 * Value(bits)
  {
    assert ([b] + bits)[1..] == bits;
    hide Pow2;
  }

  /** Shifting an outcome into a word pushes its oldest one out as the carry. */
  lemma WordShift(bits: seq<bool>, b: bool, shifted: nat)
    requires |bits| == LOG_TABLE_SIZE && shifted == 2 * Value(bits) + if b then 1 else 0
    ensures shifted % TABLE_SIZE == Value([b] + bits[..11])
    ensures shifted >= TABLE_SIZE <==> bits[11]
  {
    SplitTop(bits, b);
    hide Value;
    hide Pow2;
    CarryOut(Value(bits), Value(bits[..11]), if b then 1 else 0, bits[11], shifted);
  }

  // ---------------------------------------------------------------- the history register

  function Word(h: seq<bool>, i: nat): (w: seq<bool>)
    requires |h| == HISTORY && i < WORDS
    ensures |w| == LOG_TABLE_SIZE
  {
    h[12 * i..12 * i + 12]
  }

  /** Word `i` holds outcomes `12 i` to `12 i + 11`, the most recent one lowest. */
  ghost predicate Represents(words: seq<nat>, h: seq<bool>) {
    && |words| == WORDS && |h| == HISTORY
    && forall i :: 0 <= i < WORDS ==> words[i] == Value(Word(h, i))
  }

  /** The register after one more outcome. */
  function Push(h: seq<bool>, taken: bool): (r: seq<bool>)
    requires |h| == HISTORY
    ensures |r| == HISTORY
  {
    [taken] + h[..HISTORY - 1]
  }

  /** What is shifted into word `i`: the outcome, or the oldest bit of the word before. */
  function CarryIn(h: seq<bool>, taken: bool, i: nat): bool
    requires |h| == HISTORY && i <= WORDS
  {
    if i == 0 then taken else h[12 * i - 1]
  }

  lemma PushWord(h: seq<bool>, taken: bool, i: nat)
    requires |h| == HISTORY && i < WORDS
    ensures var shifted := 2 * Value(Word(h, i)) + if CarryIn(h, taken, i) then 1 else 0;
            && shifted % TABLE_SIZE == Value(Word(Push(h, taken), i))
            && (shifted >= TABLE_SIZE <==> CarryIn(h, taken, i + 1))
  {
    hide Value;
    hide Pow2;
    var w, c := Word(h, i), CarryIn(h, taken, i);
    WordShift(w, c, 2 * Value(w) + if c then 1 else 0);
    var r := Push(h, taken);
    forall k | 0 <= k < 12 ensures Word(r, i)[k] == ([c] + w[..11])[k] {
      assert Word(r, i)[k] == r[12 * i + k];
      assert k > 0 ==> w[k - 1] == h[12 * i + k - 1];
    }
    assert Word(r, i) == [c] + w[..11];
  }

  /** `last_branch_result`: the shift with carry through all words is one push on the register. */
  method ShiftHistory(words: array<nat>, ghost h: seq<bool>, taken: bool)
    requires Represents(words[..], h)
    modifies words
    ensures Represents(words[..], Push(h, taken))
  {
    var b := taken;
    for i := 0 to WORDS
      invariant b == CarryIn(h, taken, i)
      invariant forall j :: 0 <= j < i ==> words[j] == Value(Word(Push(h, taken), j))
      invariant forall j :: i <= j < WORDS ==> words[j] == Value(Word(h, j))
    {
      PushWord(h, taken, i);
      var shifted := 2 * words[i] + if b then 1 else 0;
      b := shifted >= TABLE_SIZE;
      words[i] := shifted % TABLE_SIZE;
    }
  }

  // ---------------------------------------------------------------- indices

  /** The first `j` words of the history, folded by exclusive or. */
  function Folded(h: seq<bool>, j: nat): nat
    requires 12 * j <= |h|
  {
    if j == 0 then 0 else Xor(Folded(h, j - 1), Value(h[12 * (j - 1)..12 * j]), LOG_TABLE_SIZE)
  }

  /** The index of a table with history length `n`: whole words, the rest of a word, and the address. */
  function Index(pc: nat, h: seq<bool>, n: nat): (x: nat)
    requires n <= |h|
    ensures x < Pow2(LOG_TABLE_SIZE)
  {
    Xor(Xor(Folded(h, n / 12), Value(h[n - n % 12..n]), LOG_TABLE_SIZE), pc, LOG_TABLE_SIZE)
  }

  lemma {:induction false} FoldedDependsOnFirst(h: seq<bool>, k: seq<bool>, j: nat)
    requires 12 * j <= |h| && 12 * j <= |k| && h[..12 * j] == k[..12 * j]
    ensures Folded(h, j) == Folded(k, j)
  {
    if j > 0 {
      var m, n := 12 * (j - 1), 12 * j;
      assert h[..m] == h[..n][..m] == k[..m];
      assert h[m..n] == h[..n][m..] == k[m..n];
      FoldedDependsOnFirst(h, k, j - 1);
    }
  }

  /** Each table's index depends only on the branch address and the last outcomes it is meant to see. */
  lemma IndexDependsOnRecentOutcomes(pc: nat, h: seq<bool>, k: seq<bool>, n: nat)
    requires n <= |h| && n <= |k| && h[..n] == k[..n]
    ensures Index(pc, h, n) == Index(pc, k, n)
    ensures Index(pc, h, n) < TABLE_SIZE
  {
    TwelveBits();
    var m := n - n % 12;
    assert h[..m] == h[..n][..m] == k[..m];
    assert h[m..n] == h[..n][m..] == k[m..n];
    assert m == 12 * (n / 12);
    FoldedDependsOnFirst(h, k, n / 12);
  }

  lemma MaskedWord(h: seq<bool>, n: nat)
    requires |h| == HISTORY && n <= 232
    ensures Value(Word(h, n / 12)) % Pow2(n % 12) == Value(h[n - n % 12..n])
  {
    var j, last := n / 12, n % 12;
    ValueMask(Word(h, j), last);
    assert Word(h, j)[..last] == h[n - last..n];
  }

  /** The loop of `predict_branch` over whole words and one masked word. */
  method HashHistory(words: array<nat>, ghost h: seq<bool>, n: nat, pc: nat) returns (x: nat)
    requires Represents(words[..], h) && n <= 232
    ensures x == Index(pc, h, n) && x < TABLE_SIZE
  {
    TwelveBits();
    MaskedWord(h, n);
    hide Value;
    hide Xor;
    hide Pow2;
    var most, last := n / LOG_TABLE_SIZE, n % LOG_TABLE_SIZE;
    x := 0;
    var j := 0;
    while j < most
      invariant j <= most && x == Folded(h, j)
    {
      assert words[j] == words[..][j] == Value(Word(h, j));
      x := Xor(x, words[j], LOG_TABLE_SIZE);
      j := j + 1;
    }
    assert words[j] == words[..][j] == Value(Word(h, j));
    x := Xor(x, words[j] % Pow2(last), LOG_TABLE_SIZE);
    x := Xor(x, pc, LOG_TABLE_SIZE);
  }

  // ---------------------------------------------------------------- the predictor

  function LengthOf(i: nat): (n: nat)
    requires i < NTABLES
    ensures n <= 232
  {
    LENGTHS[i]
  }

  // ---------------------------------------------------------------- learning

  /** Weights, history, threshold and its counter. */
  datatype Model = Model(weights: seq<seq<int>>, history: seq<bool>, theta: int, tc: int)

  /** Weights fit eight bits, and threshold and counter stay in range. */
  ghost predicate Fits(m: Model) {
    && |m.weights| == NTABLES && |m.history| == HISTORY
    && (forall i :: 0 <= i < NTABLES ==> |m.weights[i]| == TABLE_SIZE)
    && (forall i, x :: 0 <= i < NTABLES && 0 <= x < TABLE_SIZE ==> -128 <= m.weights[i][x] <= 127)
    && m.theta >= 0 && -SPEED < m.tc < SPEED
  }

  /** Where table `i` is looked up. */
  function Place(pc: nat, h: seq<bool>, i: nat): (x: nat)
    requires |h| == HISTORY && i < NTABLES
    ensures x < TABLE_SIZE
  {
    TwelveBits();
    Index(pc, h, LengthOf(i))
  }

  ghost function Selected(m: Model, pc: nat): (ws: seq<int>)
    requires Fits(m)
    ensures |ws| == NTABLES && forall i :: 0 <= i < NTABLES ==> -128 <= ws[i] <= 127
  {
    seq(NTABLES, i requires 0 <= i < NTABLES => m.weights[i][Place(pc, m.history, i)])
  }

  ghost function Total(ws: seq<int>): int {
    if ws == [] then 0 else Total(ws[..|ws| - 1]) + ws[|ws| - 1]
  }

  ghost function Output(m: Model, pc: nat): int
    requires Fits(m)
  {
    Total(Selected(m, pc))
  }

  /** A misprediction, or a correct prediction below the threshold. */
  predicate Trains(y: int, theta: int, taken: bool) { taken != (y >= 1) || -theta < y < theta }

  /** By how much a selected weight moves: one towards the outcome, unless it is at that end already. */
  function Move(w: int, taken: bool): (d: int)
    ensures d == 0 <==> w == if taken then 127 else -128
    ensures d != 0 ==> (d == 1 <==> taken) && (d == -1 <==> !taken)
  {
    if taken then (if w == 127 then 0 else 1) else if w == -128 then 0 else -1
  }

  /** What one branch, predicted and then resolved, does to weights, history and threshold. */
  ghost predicate Learned(m: Model, n: Model, pc: nat, taken: bool)
    requires Fits(m)
  {
    var y := Output(m, pc);
    && Fits(n) && n.history == Push(m.history, taken)
    && (forall i, x :: 0 <= i < NTABLES && 0 <= x < TABLE_SIZE ==>
          n.weights[i][x] - m.weights[i][x] ==
          if Trains(y, m.theta, taken) && x == Place(pc, m.history, i) then Move(m.weights[i][x], taken) else 0)
    && ThresholdMoves(y, m.theta, m.tc, n.theta, n.tc, taken)
  }

  /**
   * The threshold rises on the misprediction that makes eighteen more of them than of weak correct predictions, and
   * falls on the weak correct prediction that makes eighteen more the other way; then the counter starts over.
   */
  ghost predicate ThresholdMoves(y: int, theta: int, tc: int, newTheta: int, newTc: int, taken: bool) {
    var wrong := taken != (y >= 1);
    && SPEED * newTheta + newTc ==
       SPEED * theta + tc + (if wrong then 1 else if -theta < y < theta then -1 else 0)
    && (newTheta == theta + 1 <==> wrong && tc == SPEED - 1)
    && (newTheta == theta - 1 <==> !wrong && -theta < y < theta && tc == 1 - SPEED)
    && theta - 1 <= newTheta <= theta + 1
    && (newTheta != theta ==> newTc == 0)
  }

  class Predictor {
    const tables: array2<int>
    const words: array<nat>
    const indices: array<nat>
    var theta: int
    var tc: int
    var yout: int
    ghost var history: seq<bool>

    /** Weights fit eight bits, the words hold the register, and threshold and its counter stay in range. */
    ghost predicate Valid()
      reads this, tables, words, indices
    {
      && tables.Length0 == NTABLES && tables.Length1 == TABLE_SIZE
      && words != indices && indices.Length == NTABLES
      && |history| == HISTORY && Represents(words[..], history)
      && (forall i :: 0 <= i < NTABLES ==> indices[i] < TABLE_SIZE)
      && (forall i, x :: 0 <= i < NTABLES && 0 <= x < TABLE_SIZE ==> -128 <= tables[i, x] <= 127)
      && theta >= 0 && -SPEED < tc < SPEED
      && -2048 <= yout <= 2048
    }

    ghost function View(): (m: Model)
      requires Valid()
      reads this, tables, words, indices
      ensures Fits(m) && m.history == history && m.theta == theta && m.tc == tc
      ensures forall i, x :: 0 <= i < NTABLES && 0 <= x < TABLE_SIZE ==> m.weights[i][x] == tables[i, x]
    {
      Model(seq(NTABLES, i requires 0 <= i < NTABLES reads this, tables requires tables.Length0 == NTABLES
                         && tables.Length1 == TABLE_SIZE =>
              seq(TABLE_SIZE, x requires 0 <= x < TABLE_SIZE reads tables => tables[i, x])),
            history, theta, tc)
    }

    lemma ViewIs(m: Model)
      requires Valid() && Fits(m) && m.history == history && m.theta == theta && m.tc == tc
      requires forall i, x :: 0 <= i < NTABLES && 0 <= x < TABLE_SIZE ==> m.weights[i][x] == tables[i, x]
      ensures View() == m
    {
      hide Represents;
      var v := View();
      assert forall i :: 0 <= i < NTABLES ==> v.weights[i] == m.weights[i];
    }

    /** The last prediction was for this address, in this state. */
    ghost predicate Predicted(pc: nat)
      requires Valid()
      reads this, tables, words, indices
    {
      && yout == Output(View(), pc)
      && forall i :: 0 <= i < NTABLES ==> indices[i] == Place(pc, history, i)
    }

    constructor ()
      ensures Valid() && history == seq(HISTORY, _ => false) && theta == 10
    {
      tables := new int[NTABLES, TABLE_SIZE]((_, _) => 0);
      words := new nat[WORDS](_ => 0);
      indices := new nat[NTABLES](_ => 0);
      theta, tc, yout := 10, 0, 0;
      history := seq(HISTORY, _ => false);
      new;
      forall i | 0 <= i < WORDS ensures words[i] == Value(Word(history, i)) {
        ValueFalse(Word(history, i));
      }
    }

    /** The prediction is the sign of the sum of the weights at the indices of address and history. */
    method PredictBranch(pc: nat) returns (taken: bool)
      requires Valid()
      modifies `yout, indices
      ensures Valid() && View() == old(View()) && Predicted(pc)
      ensures taken == (Output(View(), pc) >= 1)
    {
      hide Total, Represents, Index;
      ghost var m := View();
      ghost var ws := Selected(m, pc);
      yout := 0;
      assert Total(ws[..0]) == 0 by { TotalEmpty(ws[..0]); }
      for i := 0 to NTABLES
        invariant Valid() && -128 * i <= yout <= 128 * i
        invariant forall j :: 0 <= j < i ==> indices[j] == Place(pc, history, j)
        invariant yout == Total(ws[..i])
      {
        SelectIndex(i, pc);
        TotalStep(ws, i);
        yout := yout + tables[i, indices[i]];
      }
      assert ws[..NTABLES] == ws;
      ViewIs(m);
      taken := yout >= 1;
    }

    method SelectIndex(i: nat, pc: nat)
      requires Valid() && i < NTABLES
      modifies indices
      ensures Valid() && indices[..] == old(indices[..])[i := Place(pc, history, i)]
    {
      var x := HashHistory(words, history, LengthOf(i), pc);
      hide Index;
      indices[i] := x;
    }

    /** Every selected weight moves by one towards the outcome, unless it is at that end. */
    method Train(taken: bool)
      requires Valid()
      modifies tables
      ensures Valid()
      ensures forall i, x :: 0 <= i < NTABLES && 0 <= x < TABLE_SIZE ==>
                tables[i, x] - old(tables[i, x]) == if x == indices[i] then Move(old(tables[i, x]), taken) else 0
    {
      for i := 0 to NTABLES
        invariant Valid()
        invariant forall j, x :: 0 <= j < NTABLES && 0 <= x < TABLE_SIZE ==>
                    tables[j, x] - old(tables[j, x]) ==
                    if j < i && x == indices[j] then Move(old(tables[j, x]), taken) else 0
      {
        var x := indices[i];
        if taken {
          if tables[i, x] < 127 {
            tables[i, x] := tables[i, x] + 1;
          }
        } else if tables[i, x] > -128 {
          tables[i, x] := tables[i, x] - 1;
        }
      }
    }

    /** The outcome enters the history; exactly a wrong or weak prediction trains weights and threshold. */
    method LastBranchResult(taken: bool)
      requires Valid()
      modifies this, tables, words
      ensures Valid() && history == Push(old(history), taken) && yout == old(yout)
      ensures ThresholdMoves(old(yout), old(theta), old(tc), theta, tc, taken)
      ensures forall i, x :: 0 <= i < NTABLES && 0 <= x < TABLE_SIZE ==>
                tables[i, x] - old(tables[i, x]) ==
                if Trains(old(yout), old(theta), taken) && x == indices[i] then Move(old(tables[i, x]), taken) else 0
      ensures forall pc :: old(Predicted(pc)) ==> Learned(old(View()), View(), pc, taken)
    {
      hide Represents, Push, Output, Selected, Move;
      ghost var m, chosen := View(), indices[..];
      ShiftHistory(words, history, taken);
      history := Push(history, taken);
      LearnOutcome(taken);
      forall pc | old(Predicted(pc)) ensures Learned(m, View(), pc, taken) {
        assert forall i :: 0 <= i < NTABLES ==> chosen[i] == Place(pc, m.history, i);
        hide ThresholdMoves, Trains;
        LearnedAt(m, View(), pc, taken, yout, chosen);
      }
    }

    /** The training of weights and threshold. */
    method LearnOutcome(taken: bool)
      requires Valid()
      modifies `theta, `tc, tables
      ensures Valid() && ThresholdMoves(yout, old(theta), old(tc), theta, tc, taken)
      ensures forall i, x :: 0 <= i < NTABLES && 0 <= x < TABLE_SIZE ==>
                tables[i, x] - old(tables[i, x]) ==
                if Trains(yout, old(theta), taken) && x == indices[i] then Move(old(tables[i, x]), taken) else 0
    {
      hide Represents, Move;
      var correct := taken == (yout >= 1);
      var a := if yout < 0 then -yout else yout;
      if !correct || a < theta {
        Train(taken);
        AdjustThreshold(correct);
      }
    }

    /** One step of the threshold's counter, and of the threshold when the counter is through. */
    method AdjustThreshold(correct: bool)
      requires Valid() && (correct ==> theta > 0)
      modifies `theta, `tc
      ensures Valid()
      ensures SPEED * theta + tc == SPEED * old(theta) + old(tc) + if correct then -1 else 1
      ensures theta == old(theta) + 1 <==> !correct && old(tc) == SPEED - 1
      ensures theta == old(theta) - 1 <==> correct && old(tc) == 1 - SPEED
      ensures old(theta) - 1 <= theta <= old(theta) + 1 && (theta != old(theta) ==> tc == 0)
    {
      hide Represents;
      if !correct {
        tc := tc + 1;
        if tc >= SPEED {
          theta, tc := theta + 1, 0;
        }
      } else {
        tc := tc - 1;
        if tc <= -SPEED {
          theta, tc := theta - 1, 0;
        }
      }
    }
  }

  lemma LearnedAt(m: Model, n: Model, pc: nat, taken: bool, y: int, chosen: seq<nat>)
    requires Fits(m) && Fits(n) && n.history == Push(m.history, taken) && y == Output(m, pc)
    requires |chosen| == NTABLES && forall i :: 0 <= i < NTABLES ==> chosen[i] == Place(pc, m.history, i)
    requires forall i, x :: 0 <= i < NTABLES && 0 <= x < TABLE_SIZE ==>
               n.weights[i][x] - m.weights[i][x] ==
               if Trains(y, m.theta, taken) && x == chosen[i] then Move(m.weights[i][x], taken) else 0
    requires ThresholdMoves(y, m.theta, m.tc, n.theta, n.tc, taken)
    ensures Learned(m, n, pc, taken)
  {
    hide Push, Output, Trains, ThresholdMoves, Move, Place;
  }

  lemma TotalEmpty(ws: seq<int>)
    requires ws == []
    ensures Total(ws) == 0
  {
  }

  lemma TotalStep(ws: seq<int>, i: nat)
    requires i < |ws|
    ensures Total(ws[..i + 1]) == Total(ws[..i]) + ws[i]
  {
    assert ws[..i + 1][..i] == ws[..i];
  }

  lemma {:induction false} ValueFalse(bits: seq<bool>)
    requires forall i :: 0 <= i < |bits| ==> !bits[i]
    ensures Value(bits) == 0
  {
    if bits != [] {
      ValueFalse(bits[1..]);
    }
  }
}
