/** Gaze as the simulator runs it: tables changed in place, patterns built by loops. */
module GazeMachine {
  import opened Gaze
  import opened Seqs
  import opened Wrappers

  method FillStride(d: AccumulateData) returns (p: seq<nat>)
    requires |d.pattern| == NUM_BLOCKS
    ensures p == StridePattern(d)
  {
    p := seq(NUM_BLOCKS, _ => 0);
    for i := 1 to STRIDE_DEGREE + 1
      invariant |p| == NUM_BLOCKS
      invariant forall x :: 0 <= x < NUM_BLOCKS ==>
                  (p[x] == 0 || p[x] == PF_FILL_L1)
                  && (p[x] != 0 <==> !d.pattern[x] && exists n: nat :: 1 <= n < i && StrideTarget(d, n) == x)
    {
      var target := d.lastOffset + (i + STRIDE_LOOKAHEAD) * d.lastStride;
      assert target == StrideTarget(d, i);
      if 0 <= target < NUM_BLOCKS && !d.pattern[target] {
        p := p[target := PF_FILL_L1];
      }
    }
  }

  method ToLevels(pattern: seq<bool>) returns (p: seq<nat>)
    ensures p == Levels(pattern)
  {
    p := [];
    for i := 0 to |pattern|
      invariant |p| == i && forall j :: 0 <= j < i ==> p[j] == if pattern[j] then PF_FILL_L1 else 0
    {
      p := p + [if pattern[i] then PF_FILL_L1 else 0];
    }
  }

  method AllSet(pattern: seq<bool>) returns (all: bool)
    ensures all == forall i :: 0 <= i < |pattern| ==> pattern[i]
  {
    for i := 0 to |pattern|
      invariant forall j :: 0 <= j < i ==> pattern[j]
    {
      if !pattern[i] {
        return false;
      }
    }
    return true;
  }

  method CountNonZero(pattern: seq<nat>) returns (n: nat)
    ensures n == Count(pattern, NonZero())
  {
    n := 0;
    var i := 0;
    assert pattern[0..] == pattern;
    while i < |pattern|
      invariant i <= |pattern|
      invariant Count(pattern, NonZero()) == n + Count(pattern[i..], NonZero())
    {
      assert pattern[i..][1..] == pattern[i + 1..];
      n, i := if pattern[i] != 0 then n + 1 else n, i + 1;
    }
  }

  class GazePrefetcher {
    var ft: map<Key, FilterData>
    var at: map<Key, AccumulateData>
    var pt: map<(Offset, Offset), PatternData>
    var conCounter: nat
    var conPc: seq<nat>
    var stridePrefetch: bool
    ghost var spec: Spec

    function View(): State
      reads this
    {
      State(ft, at, pt, conCounter, conPc, stridePrefetch)
    }

    /** The tables mean what the first-touch lists say. */
    ghost predicate Valid()
      reads this
    {
      Refines(View(), spec) && StreamInv(View())
    }

    constructor ()
      ensures Valid() && View() == INITIAL && spec == NOTHING
    {
      ft, at, pt, conCounter, conPc, stridePrefetch := map[], map[], map[], 0, [], false;
      spec := NOTHING;
    }

    /** `PatternTable::insert`, whose assertion about trigger and second is the precondition. */
    method LearnPattern(d: AccumulateData, victims: Victims)
      requires |d.pattern| == NUM_BLOCKS && d.pattern[d.trigger] && d.pattern[d.second]
      modifies `pt, `conCounter, `conPc
      ensures View() == Learn(old(View()), d, victims)
    {
      var allSet := AllSet(d.pattern);
      if d.trigger != 0 || d.second != 1 {
        var key := (d.trigger, d.second);
        var levels := ToLevels(d.pattern);
        if key !in pt {
          pt := Drop(pt, victims.pt);
        }
        pt := pt[key := PatternData(levels, d.pc, false)];
      } else if allSet {
        if conCounter < 8 {
          conCounter := conCounter + 1;
        }
        var hashed := HashedPc(d.pc);
        if hashed !in conPc {
          if |conPc| == 8 {
            conPc := conPc[..7];
          }
          conPc := [hashed] + conPc;
        }
      } else if conCounter > 2 {
        // The shifted counter is not stored.
      } else if conCounter > 0 {
        conCounter := conCounter - 1;
      }
    }

    /** `set_pattern`: the first touch of an offset in a tracked region. */
    method SetPattern(key: Key, o: Offset)
      requires key in at && |at[key].pattern| == |at[key].order| == NUM_BLOCKS
      modifies `at, `stridePrefetch
      ensures View() == old(View()).(at := old(at)[key := Touched(old(at)[key], o)],
                                     stridePrefetch := StrideFlag(old(at)[key], o, old(stridePrefetch)))
    {
      var d := at[key];
      if !d.pattern[o] {
        var timestamp := d.timestamp + 1;
        var stride := o - d.lastOffset;
        if d.missed || d.con {
          stridePrefetch := stride == d.lastStride;
        }
        d := d.(timestamp := timestamp, order := d.order[o := timestamp], pattern := d.pattern[o := true],
                lastOffset := o, lastStride := stride);
      }
      at := at[key := d];
    }

    method AccessRegion(key: Key, o: Offset, pc: nat, victims: Victims) returns (request: Option<Request>)
      requires Valid() && WellSized(View()) && Long(spec)
      modifies this
      ensures Valid() && (View(), request) == Access(old(View()), key, o, pc, victims)
      ensures spec == SpecAccess(old(spec), key, o, victims)
    {
      AccessRefines(View(), spec, key, o, pc, victims);
      ghost var next := SpecAccess(spec, key, o, victims);
      assert key in at ==> |at[key].pattern| == |at[key].order| == NUM_BLOCKS;
      VictimSound(victims.at);
      hide Refines;
      hide StreamInv;
      hide SpecAccess;
      hide AccessTracked;
      hide AccessSecond;
      hide WellSized;
      request := None;
      if key in at {
        request := AccessKnown(key, o);
      } else if key !in ft {
        ft := Drop(ft, victims.ft)[key := FilterData(o, pc)];
      } else if ft[key].trigger != o {
        request := StartAccumulating(key, o, pc, victims);
      }
      spec := next;
    }

    method AccessKnown(key: Key, o: Offset) returns (request: Option<Request>)
      requires key in at && |at[key].pattern| == |at[key].order| == NUM_BLOCKS
      modifies `at, `stridePrefetch
      ensures (View(), request) == AccessTracked(old(View()), key, o)
    {
      request := None;
      SetPattern(key, o);
      ghost var d := at[key];
      if stridePrefetch {
        request := StrideRequest(key);
        assert at == old(at)[key := d.(lastOffset := 0, lastStride := 0)];
      }
    }

    method StrideRequest(key: Key) returns (request: Option<Request>)
      requires key in at && |at[key].pattern| == NUM_BLOCKS
      modifies `at, `stridePrefetch
      ensures var d := old(at)[key];
              && View() == old(View()).(at := old(at)[key := d.(lastOffset := 0, lastStride := 0)],
                                        stridePrefetch := false)
              && request == if d.missed then Some(Request(key, StridePattern(d), d.lastOffset, d.lastOffset, 0))
                            else if d.con then Some(Request(key, StridePattern(d), d.lastOffset, d.lastOffset, 3))
                            else None
    {
      var d := at[key];
      var pattern := FillStride(d);
      at := at[key := d.(lastOffset := 0, lastStride := 0)];
      request := None;
      if d.missed {
        request := Some(Request(key, pattern, d.lastOffset, d.lastOffset, 0));
      } else if d.con {
        request := Some(Request(key, pattern, d.lastOffset, d.lastOffset, 3));
      }
      stridePrefetch := false;
    }

    lemma VictimSound(victim: Option<Key>)
      requires Valid()
      ensures victim.Some? && victim.value in at ==>
                var d := at[victim.value];
                |d.pattern| == NUM_BLOCKS && d.pattern[d.trigger] && d.pattern[d.second]
    {
      if victim.Some? && victim.value in at {
        var l := spec.at[victim.value];
        assert Represents(at[victim.value], l);
        assert l[0] in l && l[1] in l;
      }
    }

    method StartAccumulating(key: Key, o: Offset, pc: nat, victims: Victims) returns (request: Option<Request>)
      requires key in ft
      requires victims.at.Some? && victims.at.value in at ==>
                 var d := at[victims.at.value];
                 |d.pattern| == NUM_BLOCKS && d.pattern[d.trigger] && d.pattern[d.second]
      modifies `ft, `at, `pt, `conCounter, `conPc
      ensures (View(), request) == AccessSecond(old(View()), key, o, pc, victims)
    {
      var f := ft[key];
      var found := Recall(View(), f.trigger, o, pc);
      var missed := true;
      if found.Some? {
        var n := CountNonZero(found.value.pattern);
        missed := n == 2;
      }
      request := None;
      if !missed {
        request := Some(Request(key, found.value.pattern, f.trigger, o, if found.value.con then 2 else 1));
      }
      var evicted := None;
      if victims.at.Some? && victims.at.value in at {
        evicted := Some(at[victims.at.value]);
      }
      at := Drop(at, victims.at)[key := Started(f, o, missed, !missed && found.value.con)];
      ft := ft - {key};
      if evicted.Some? {
        LearnPattern(evicted.value, victims);
      }
    }

    method EvictRegion(key: Key, victims: Victims)
      requires Valid() && Long(spec)
      modifies this
      ensures Valid() && View() == Evict(old(View()), key, victims)
      ensures spec == SpecEvict(old(spec), key, victims)
    {
      EvictRefines(View(), spec, key, victims);
      VictimSound(Some(key));
      ghost var next := SpecEvict(spec, key, victims);
      ft := ft - {key};
      if key in at {
        var d := at[key];
        at := at - {key};
        LearnPattern(d, victims);
      } else {
        at := at - {key};
      }
      spec := next;
    }
  }
}
