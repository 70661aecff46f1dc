/** DSPatch as the simulator runs it: bitmaps built by index loops, tables changed in place. */
module DspatchMachine {
  import opened Bits
  import opened Dspatch
  import opened Wrappers

  method RotateLeftLoop(b: Bitmap, amount: nat, size: nat) returns (r: Bitmap)
    requires amount <= size <= MAX_BITS
    ensures r == RotateLeft(b, amount, size)
  {
    r := Clear();
    for index := 0 to size - amount
      invariant forall i :: 0 <= i < MAX_BITS ==> r[i] == (amount <= i < amount + index && b[i - amount])
    {
      r := r[index + amount := b[index]];
    }
    for index := 0 to amount
      invariant forall i :: 0 <= i < MAX_BITS ==>
                  r[i] == if i < index then b[i + size - amount] else amount <= i < size && b[i - amount]
    {
      r := r[index := b[index + size - amount]];
    }
  }

  method RotateRightLoop(b: Bitmap, amount: nat, size: nat) returns (r: Bitmap)
    requires amount <= size <= MAX_BITS
    ensures r == RotateRight(b, amount, size)
  {
    r := Clear();
    for index := 0 to size - amount
      invariant forall i :: 0 <= i < MAX_BITS ==> r[i] == (i < index && b[i + amount])
    {
      r := r[index := b[index + amount]];
    }
    for index := 0 to amount
      invariant forall i :: 0 <= i < MAX_BITS ==>
                  r[i] == if i < size - amount then b[i + amount]
                          else i < size - amount + index && b[i - (size - amount)]
    {
      r := r[size - amount + index := b[index]];
    }
  }

  lemma GroupBounds(i: nat, grain: Pos, p: nat)
    ensures i / grain == p <==> p * grain <= i < p * grain + grain
  {
    if p * grain <= i < p * grain + grain {
      DivUnique(i, grain, p, i - p * grain);
    } else {
      QuotientExists(i, grain);
    }
  }

  /** One group of a compression. */
  method GroupLoop(b: Bitmap, grain: Pos, p: nat) returns (res: bool)
    requires p * grain + grain <= MAX_BITS
    ensures res == GroupSet(b, grain, p)
  {
    res := false;
    for gran := 0 to grain
      invariant res <==> exists i :: p * grain <= i < p * grain + gran && b[i]
    {
      res := res || b[p * grain + gran];
    }
    if res {
      var i :| p * grain <= i < p * grain + grain && b[i];
      GroupBounds(i, grain, p);
    } else {
      forall i | 0 <= i < MAX_BITS && b[i] ensures i / grain != p {
        GroupBounds(i, grain, p);
      }
    }
  }

  method CompressLoop(b: Bitmap, grain: Pos) returns (r: Bitmap)
    requires MAX_BITS % grain == 0
    ensures r == Compress(b, grain)
  {
    r := Clear();
    var ptr, index := 0, 0;
    assert MAX_BITS == MAX_BITS / grain * grain;
    while index < MAX_BITS
      invariant index == ptr * grain <= MAX_BITS && ptr <= MAX_BITS / grain <= MAX_BITS
      invariant forall p :: 0 <= p < MAX_BITS ==> r[p] == (p < ptr && GroupSet(b, grain, p))
      decreases MAX_BITS - index
    {
      NextGroup(ptr, MAX_BITS / grain, grain);
      var res := GroupLoop(b, grain, ptr);
      r := r[ptr := res];
      ptr, index := ptr + 1, index + grain;
    }
    forall p | ptr <= p < MAX_BITS ensures !GroupSet(b, grain, p) {
      forall i | 0 <= i < MAX_BITS ensures i / grain != p {
        GroupBounds(i, grain, p);
        MulMono(ptr, p, grain, grain);
      }
    }
  }

  lemma NextGroup(ptr: nat, groups: nat, grain: Pos)
    requires ptr * grain < groups * grain
    ensures ptr < groups && (ptr + 1) * grain == ptr * grain + grain <= groups * grain
  {
    if ptr >= groups {
      MulMono(groups, ptr, grain, grain);
    } else {
      MulMono(ptr + 1, groups, grain, grain);
    }
  }

  method DecompressLoop(b: Bitmap, grain: Pos, size: nat) returns (r: Bitmap)
    requires size * grain <= MAX_BITS && size <= MAX_BITS
    ensures r == Decompress(b, grain, size)
  {
    r := Clear();
    for index := 0 to size
      invariant forall i :: 0 <= i < MAX_BITS ==> r[i] == (Expanded(b, grain, size, i) && i / grain < index)
    {
      if b[index] {
        r := GroupFill(r, grain, index, size);
      }
    }
    forall i | 0 <= i < MAX_BITS && Expanded(b, grain, size, i) ensures i / grain < size {
    }
  }

  /** One group of a decompression. */
  method GroupFill(b: Bitmap, grain: Pos, p: nat, size: nat) returns (r: Bitmap)
    requires p < size && size * grain <= MAX_BITS
    ensures forall i :: 0 <= i < MAX_BITS ==> r[i] == (b[i] || i / grain == p)
  {
    MulMono(p + 1, size, grain, grain);
    assert (p + 1) * grain == p * grain + grain;
    r := b;
    var ptr := p * grain;
    for count := 0 to grain
      invariant forall i :: 0 <= i < MAX_BITS ==> r[i] == (b[i] || ptr <= i < ptr + count)
    {
      r := r[ptr + count := true];
    }
    forall i | 0 <= i < MAX_BITS ensures i / grain == p <==> ptr <= i < ptr + grain {
      GroupBounds(i, grain, p);
    }
  }

  method OrLoop(x: Bitmap, y: Bitmap) returns (r: Bitmap)
    ensures r == Or(x, y)
  {
    r := Clear();
    for index := 0 to MAX_BITS
      invariant forall i :: 0 <= i < MAX_BITS ==> r[i] == (i < index && (x[i] || y[i]))
    {
      if x[index] || y[index] {
        r := r[index := true];
      }
    }
  }

  method AndLoop(x: Bitmap, y: Bitmap) returns (r: Bitmap)
    ensures r == And(x, y)
  {
    r := Clear();
    for index := 0 to MAX_BITS
      invariant forall i :: 0 <= i < MAX_BITS ==> r[i] == (i < index && x[i] && y[i])
    {
      if x[index] && y[index] {
        r := r[index := true];
      }
    }
  }

  /** `count_bits_diff`, as far as it matters: is there a bit of `x` that `y` lacks? */
  method AnyDifference(x: Bitmap, y: Bitmap) returns (any: bool)
    ensures any == exists i :: 0 <= i < MAX_BITS && x[i] && !y[i]
  {
    var count := 0;
    for index := 0 to MAX_BITS
      invariant count > 0 <==> exists i :: 0 <= i < index && x[i] && !y[i]
      invariant count >= 0
    {
      if x[index] && !y[index] {
        count := count + 1;
      }
    }
    any := count != 0;
  }

  /** `add_to_spt`. */
  method Train(c: Config, s: SignatureEntry, e: PageEntry, o: Outcomes) returns (t: SignatureEntry)
    requires Sensible(c) && e.offset <= c.lines <= MAX_BITS
    ensures t == Trained(c, s, e, o)
  {
    var seen := RotateRightLoop(e.bits, e.offset, c.lines);
    var known := DecompressLoop(s.cov, c.grain, c.lines);
    t := s;
    var difference := AnyDifference(seen, known);
    if difference {
      t := t.(orCount := Incremented(t.orCount, c.orMax));
    }
    if o.poorCov {
      t := t.(measureCov := Incremented(t.measureCov, c.covMax));
    }
    if t.measureCov == c.covMax {
      if o.resetCov {
        var cov := CompressLoop(seen, c.grain);
        t := t.(cov := cov, orCount := 0);
      }
    } else {
      var union := OrLoop(known, seen);
      var cov := CompressLoop(union, c.grain);
      t := t.(cov := cov);
    }
    t := t.(measureAcc := if o.poorAcc then Incremented(t.measureAcc, UINT_MAX) else Decremented(t.measureAcc));
    var covered := DecompressLoop(t.cov, c.grain, c.lines);
    var acc := AndLoop(seen, covered);
    acc := CompressLoop(acc, c.grain);
    t := t.(acc := acc);
  }

  class DspatchPrefetcher {
    const config: Config
    const indexOf: Indexer
    var buffer: seq<PageEntry>
    var spt: seq<SignatureEntry>
    var bandwidth: nat
    ghost var touches: Touches

    function View(): State
      reads this
    {
      State(buffer, spt, bandwidth)
    }

    ghost predicate Valid()
      reads this
    {
      Sensible(config) && StateInv(config, View()) && Indexes(indexOf, |spt|) && Records(View(), touches)
    }

    constructor (c: Config, indexOf: Indexer, entries: Pos)
      requires Sensible(c) && Indexes(indexOf, entries)
      ensures Valid() && buffer == [] && config == c
    {
      LinesFit(c);
      config, this.indexOf := c, indexOf;
      buffer, spt, bandwidth, touches := [], seq(entries, _ => Untrained()), 0, [];
    }

    method SearchPage(page: nat) returns (k: nat)
      ensures k == FindPage(buffer, page)
    {
      k := 0;
      while k < |buffer| && buffer[k].page != page
        invariant k <= |buffer| && FindPage(buffer, page) == k + FindPage(buffer[k..], page)
      {
        assert buffer[k..][1..] == buffer[k + 1..];
        k := k + 1;
      }
    }

    method GeneratePrefetch(pc: nat, offset: nat) returns (pattern: Bitmap)
      requires Sensible(config) && offset < config.lines <= MAX_BITS && indexOf(pc) < |spt|
      ensures pattern == Predicted(config, spt[indexOf(pc)], bandwidth, offset)
    {
      var selected := Select(config, spt[indexOf(pc)], bandwidth);
      var bits := DecompressLoop(selected.bits, config.grain, config.lines);
      bits := RotateLeftLoop(bits, offset, config.lines);
      if bandwidth >= config.throttle && selected.candidate == AccP {
        bits := Clear();
      }
      pattern := Clear();
      for index := 0 to config.lines
        invariant forall i :: 0 <= i < MAX_BITS ==> pattern[i] == (i < index && bits[i] && i != offset)
      {
        if bits[index] && index != offset {
          pattern := pattern[index := true];
        }
      }
    }

    /** A touch is recorded exactly, and a page that leaves trains the table with exactly its touches. */
    method InvokePrefetcher(page: nat, pc: nat, offset: nat, o: Outcomes) returns (prediction: Option<Bitmap>)
      requires Valid() && offset < config.lines
      modifies this
      ensures Valid()
      ensures (View(), prediction) == Invoke(config, old(View()), indexOf, page, pc, offset, o)
      ensures touches == Touched(config, old(touches), page, offset)
    {
      InvokeKeeps(config, View(), indexOf, page, pc, offset, o);
      InvokeRecords(config, View(), touches, indexOf, page, pc, offset, o);
      ghost var next := Touched(config, touches, page, offset);
      hide Records;
      hide Touched;
      prediction := None;
      var k := SearchPage(page);
      if k < |buffer| {
        buffer := buffer[k := Marked(buffer[k], offset)];
      } else {
        if |buffer| >= config.pbSize {
          var e := buffer[0];
          assert indexOf(e.pc) < |spt|;
          buffer := buffer[1..];
          var trained := Train(config, spt[indexOf(e.pc)], e, o);
          spt := spt[indexOf(e.pc) := trained];
        }
        buffer := buffer + [Fresh(page, pc, offset)];
        assert indexOf(pc) < |spt|;
        var pattern := GeneratePrefetch(pc, offset);
        prediction := Some(pattern);
      }
      touches := next;
    }
  }
}
