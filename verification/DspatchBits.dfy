/** DSPatch line by line: what a training writes into an entry, and which lines a prediction asks for. */
module DspatchBits {
  import opened Bits
  import opened Dspatch
  import opened HashIndex

  // ---------------------------------------------------------------- lines and groups

  /** The group of a line, counted from the trigger and around the end of the region. */
  function GroupOf(c: Config, trigger: nat, line: nat): nat {
    Quotient(Euclid(line - trigger, c.lines), c.grain)
  }

  function Euclid(n: int, m: Pos): (r: nat)
    ensures r < m
  {
    n % m
  }

  /** Some touched line lies in group `p`. */
  ghost predicate Seen(c: Config, e: PageEntry, p: nat) {
    exists i: nat :: i < c.lines && i < MAX_BITS && e.bits[i] && GroupOf(c, e.offset, i) == p
  }

  /** Anchored at the trigger, a line moves down by it, around the end of the region. */
  lemma AnchoredExactly(b: Bitmap, amount: nat, size: Pos, i: nat)
    requires amount <= size <= MAX_BITS && i < size
    ensures RotateRight(b, amount, size)[Euclid(i - amount, size)] == b[i]
    ensures RotateLeft(b, amount, size)[i] == b[Euclid(i - amount, size)]
  {
    if i < amount {
      EuclidUnique(i - amount, size, -1, i - amount + size);
    } else {
      EuclidUnique(i - amount, size, 0, i - amount);
    }
  }

  /** Every place is the place of some line. */
  lemma LineAt(amount: nat, size: Pos, j: nat) returns (i: nat)
    requires amount <= size && j < size
    ensures i < size && Euclid(i - amount, size) == j
  {
    if j < size - amount {
      i := j + amount;
      EuclidUnique(i - amount, size, 0, j);
    } else {
      i := j - (size - amount);
      EuclidUnique(i - amount, size, -1, j);
    }
  }

  lemma SeenGroup(c: Config, e: PageEntry, p: nat)
    requires Sensible(c) && e.offset <= c.lines <= MAX_BITS
    ensures GroupSet(Anchored(c, e), c.grain, p) <==> Seen(c, e, p)
    ensures Seen(c, e, p) ==> p < c.lines
  {
    if GroupSet(Anchored(c, e), c.grain, p) {
      GroupSeen(c, e, p);
    }
    if Seen(c, e, p) {
      SeenSets(c, e, p);
    }
  }

  lemma GroupSeen(c: Config, e: PageEntry, p: nat)
    requires Sensible(c) && e.offset <= c.lines <= MAX_BITS && GroupSet(Anchored(c, e), c.grain, p)
    ensures Seen(c, e, p)
  {
    var a := Anchored(c, e);
    var j: nat :| j < MAX_BITS && a[j] && j / c.grain == p;
    assert j < c.lines by {
      RotateRightWithin(e.bits, e.offset, c.lines);
    }
    var i := LineAt(e.offset, c.lines, j);
    AnchoredExactly(e.bits, e.offset, c.lines, i);
    hide RotateRight;
  }

  lemma SeenSets(c: Config, e: PageEntry, p: nat)
    requires Sensible(c) && e.offset <= c.lines <= MAX_BITS && Seen(c, e, p)
    ensures p < c.lines && GroupSet(Anchored(c, e), c.grain, p)
  {
    var a := Anchored(c, e);
    var i: nat :| i < c.lines && i < MAX_BITS && e.bits[i] && GroupOf(c, e.offset, i) == p;
    AnchoredExactly(e.bits, e.offset, c.lines, i);
    hide RotateRight;
    var j := Euclid(i - e.offset, c.lines);
    assert a[j] && j / c.grain == p;
    GroupSmaller(j, c.grain);
  }

  /** A group of the decompressed pattern is a bit of the pattern. */
  lemma KnownGroup(b: Bitmap, grain: Pos, size: nat, p: nat)
    requires size * grain <= MAX_BITS && p < MAX_BITS
    ensures GroupSet(Decompress(b, grain, size), grain, p) <==> p < size && b[p]
  {
    var d := Decompress(b, grain, size);
    if p < size && b[p] {
      GroupMember(p, grain, 0);
      BelowProduct(p, size, grain);
      assert Expanded(b, grain, size, p * grain);
      assert d[p * grain];
    }
    if GroupSet(d, grain, p) {
      var i :| 0 <= i < MAX_BITS && d[i] && i / grain == p;
      assert Expanded(b, grain, size, i);
    }
  }

  // ---------------------------------------------------------------- training

  lemma OrGroup(x: Bitmap, y: Bitmap, grain: Pos, p: nat)
    ensures GroupSet(Or(x, y), grain, p) <==> GroupSet(x, grain, p) || GroupSet(y, grain, p)
  {
    if GroupSet(x, grain, p) {
      var i :| 0 <= i < MAX_BITS && x[i] && i / grain == p;
      assert Or(x, y)[i];
    }
    if GroupSet(y, grain, p) {
      var i :| 0 <= i < MAX_BITS && y[i] && i / grain == p;
      assert Or(x, y)[i];
    }
  }

  /** Intersecting with a decompressed pattern keeps or drops whole groups. */
  lemma AndGroup(x: Bitmap, b: Bitmap, grain: Pos, size: nat, p: nat)
    requires size * grain <= MAX_BITS && p < MAX_BITS
    ensures GroupSet(And(x, Decompress(b, grain, size)), grain, p) <==> GroupSet(x, grain, p) && p < size && b[p]
  {
    var d := Decompress(b, grain, size);
    if GroupSet(x, grain, p) && p < size && b[p] {
      var i :| 0 <= i < MAX_BITS && x[i] && i / grain == p;
      assert Expanded(b, grain, size, i);
      assert And(x, d)[i];
    }
    if GroupSet(And(x, d), grain, p) {
      var i :| 0 <= i < MAX_BITS && And(x, d)[i] && i / grain == p;
      assert Expanded(b, grain, size, i) && x[i];
    }
  }

  /** The measure of coverage after the training; at its limit the pattern no longer grows. */
  function MeasureCov(c: Config, s: SignatureEntry, o: Outcomes): nat {
    if o.poorCov && s.measureCov < c.covMax then s.measureCov + 1 else s.measureCov
  }

  /**
   * A training, group by group: the coverage pattern grows by the groups that were seen, or is replaced by them, or
   * stays; the accuracy pattern becomes the groups that were seen and are covered now.
   */
  lemma TrainedExactly(c: Config, s: SignatureEntry, e: PageEntry, o: Outcomes, p: nat)
    requires Sensible(c) && e.offset <= c.lines <= MAX_BITS && p < MAX_BITS
    ensures var t, full := Trained(c, s, e, o), MeasureCov(c, s, o) == c.covMax;
            && (t.cov[p] <==> if !full then Seen(c, e, p) || (p < c.lines && s.cov[p])
                              else if o.resetCov then Seen(c, e, p) else s.cov[p])
            && (t.acc[p] <==> Seen(c, e, p) && t.cov[p])
  {
    var a, k := Anchored(c, e), Decompress(s.cov, c.grain, c.lines);
    SeenGroup(c, e, p);
    KnownGroup(s.cov, c.grain, c.lines, p);
    OrGroup(k, a, c.grain, p);
    AndGroup(a, Trained(c, s, e, o).cov, c.grain, c.lines, p);
    hide Seen, GroupSet, Decompress, Anchored, Or, And;
  }

  /** Some touched line is not covered by the pattern. */
  ghost predicate Unknown(c: Config, s: SignatureEntry, e: PageEntry) {
    exists i: nat :: i < c.lines && i < MAX_BITS && e.bits[i]
                     && (GroupOf(c, e.offset, i) >= MAX_BITS || !s.cov[GroupOf(c, e.offset, i)])
  }

  lemma UnknownBits(c: Config, s: SignatureEntry, e: PageEntry)
    requires Sensible(c) && e.offset <= c.lines <= MAX_BITS
    ensures var a, k := Anchored(c, e), Decompress(s.cov, c.grain, c.lines);
            Unknown(c, s, e) <==> exists i :: 0 <= i < MAX_BITS && a[i] && !k[i]
  {
    var a, k := Anchored(c, e), Decompress(s.cov, c.grain, c.lines);
    if i: nat :| i < MAX_BITS && a[i] && !k[i] {
      assert i < c.lines by {
        RotateRightWithin(e.bits, e.offset, c.lines);
      }
      var l := LineAt(e.offset, c.lines, i);
      LineKnown(c, s, e, l);
      assert !k[Euclid(l - e.offset, c.lines)];
    }
    if Unknown(c, s, e) {
      var l: nat :| l < c.lines && l < MAX_BITS && e.bits[l]
                    && (GroupOf(c, e.offset, l) >= MAX_BITS || !s.cov[GroupOf(c, e.offset, l)]);
      LineKnown(c, s, e, l);
      var i := Euclid(l - e.offset, c.lines);
      assert a[i] && !k[i];
    }
  }

  lemma LineKnown(c: Config, s: SignatureEntry, e: PageEntry, l: nat)
    requires Sensible(c) && e.offset <= c.lines <= MAX_BITS && l < c.lines
    ensures var i := Euclid(l - e.offset, c.lines);
            && Anchored(c, e)[i] == e.bits[l]
            && (Decompress(s.cov, c.grain, c.lines)[i] <==>
                GroupOf(c, e.offset, l) < MAX_BITS && s.cov[GroupOf(c, e.offset, l)])
  {
    AnchoredExactly(e.bits, e.offset, c.lines, l);
    var i := Euclid(l - e.offset, c.lines);
    GroupSmaller(i, c.grain);
    assert Decompress(s.cov, c.grain, c.lines)[i] == Expanded(s.cov, c.grain, c.lines, i);
  }

  /** The three counters of an entry after a training. */
  lemma CountersExactly(c: Config, s: SignatureEntry, e: PageEntry, o: Outcomes)
    requires Sensible(c) && e.offset <= c.lines <= MAX_BITS
    ensures var t, full := Trained(c, s, e, o), MeasureCov(c, s, o) == c.covMax;
            && t.measureCov == MeasureCov(c, s, o)
            && t.measureAcc == (if o.poorAcc then (if s.measureAcc < UINT_MAX then s.measureAcc + 1 else s.measureAcc)
                                else if s.measureAcc > 0 then s.measureAcc - 1 else 0)
            && t.orCount == (if full && o.resetCov then 0
                             else if Unknown(c, s, e) && s.orCount < c.orMax then s.orCount + 1 else s.orCount)
  {
    UnknownBits(c, s, e);
    hide Anchored, Decompress, Unknown, Compress, Or, And;
  }

  // ---------------------------------------------------------------- prediction

  /** Nothing is asked for: the bandwidth is used up and the accuracy is poor, or accuracy prefetches are throttled. */
  predicate Silent(c: Config, s: SignatureEntry, bandwidth: nat) {
    || (bandwidth == 3 && s.measureAcc == c.accMax)
    || (bandwidth >= c.throttle && (bandwidth == 3 || (bandwidth == 2 && s.measureCov == c.covMax)))
  }

  /**
   * A prediction asks for a line exactly if it is not the trigger, and its group, counted from the trigger, is in
   * the accuracy pattern at high bandwidth use, and at medium use if coverage is poor, and else in the coverage
   * pattern.
   */
  lemma PredictedExactly(c: Config, s: SignatureEntry, bandwidth: nat, offset: nat, i: nat)
    requires Sensible(c) && offset < c.lines <= MAX_BITS && i < MAX_BITS
    ensures Predicted(c, s, bandwidth, offset)[i] <==>
              && i < c.lines && i != offset && !Silent(c, s, bandwidth)
              && GroupOf(c, offset, i) < MAX_BITS
              && if bandwidth == 3 || (bandwidth == 2 && s.measureCov == c.covMax) then s.acc[GroupOf(c, offset, i)]
                 else s.cov[GroupOf(c, offset, i)]
  {
    UnfoldedLine(c, s.acc, offset, i);
    UnfoldedLine(c, s.cov, offset, i);
    UnfoldedLine(c, Clear(), offset, i);
    hide Unfolded, GroupOf;
  }

  lemma UnfoldedLine(c: Config, b: Bitmap, offset: nat, i: nat)
    requires Sensible(c) && offset <= c.lines <= MAX_BITS && i < MAX_BITS
    ensures Unfolded(c, b, offset)[i] <==>
              i < c.lines && GroupOf(c, offset, i) < MAX_BITS && b[GroupOf(c, offset, i)]
  {
    var d := Decompress(b, c.grain, c.lines);
    if i < c.lines {
      AnchoredExactly(d, offset, c.lines, i);
      var j := Euclid(i - offset, c.lines);
      GroupSmaller(j, c.grain);
      assert d[j] == Expanded(b, c.grain, c.lines, j);
    }
  }
}
