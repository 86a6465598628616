/** Duplicate-free storage of packed states under dense ids (src/search/state_registry.cc and .h). */
module StateRegistry {
  import opened Bits
  import opened IntPacker
  import opened SegmentedVector

  /** An assignment of a value to every variable. */
  type Assignment = seq<Word>

  // ---------- A registry as the list of its states ----------

  ghost predicate Distinct(states: seq<Assignment>) {
    forall i, j :: 0 <= i < j < |states| ==> states[i] != states[j]
  }

  /** A state that is not registered yet gets the next id. */
  ghost function Registered(states: seq<Assignment>, s: Assignment): seq<Assignment> {
    if s in states then states else states + [s]
  }

  ghost function Run(states: seq<Assignment>, inserts: seq<Assignment>): seq<Assignment>
    decreases |inserts|
  {
    if inserts == [] then states else Run(Registered(states, inserts[0]), inserts[1..])
  }

  /** In every run, ids are dense, never change meaning, and are in bijection with the assignments inserted. */
  lemma {:induction false} RunKeepsIds(states: seq<Assignment>, inserts: seq<Assignment>)
    requires Distinct(states)
    ensures states <= Run(states, inserts) && Distinct(Run(states, inserts))
    ensures forall s :: s in Run(states, inserts) <==> s in states || s in inserts
    decreases |inserts|
  {
    if inserts != [] {
      var next := Registered(states, inserts[0]);
      assert states <= next && Distinct(next);
      assert forall s :: s in next <==> s in states || s == inserts[0];
      assert forall s :: s in inserts <==> s == inserts[0] || s in inserts[1..];
      hide Registered, Distinct;
      RunKeepsIds(next, inserts[1..]);
    }
  }

  // ---------- Effects ----------

  datatype Fact = Fact(v: nat, val: Word)

  datatype Effect = Effect(v: nat, val: Word, conditions: seq<Fact>)

  ghost predicate Fires(e: Effect, s: Assignment) {
    forall c :: c in e.conditions ==> c.v < |s| && s[c.v] == c.val
  }

  function Updated(s: Assignment, v: nat, value: Word): Assignment
    requires v < |s|
  {
    s[v := value]
  }

  ghost predicate OnVariables(n: nat, effects: seq<Effect>) {
    forall i :: 0 <= i < |effects| ==> effects[i].v < n
  }

  lemma {:induction false} AppliedOneMore(pred: Assignment, s: Assignment, effects: seq<Effect>, i: nat)
    requires |s| == |pred| && OnVariables(|s|, effects) && i < |effects|
    ensures OnVariables(|s|, effects[..i]) && OnVariables(|s|, effects[..i + 1])
    ensures Applied(pred, s, effects[..i + 1]) ==
      if Fires(effects[i], pred) then Updated(Applied(pred, s, effects[..i]), effects[i].v, effects[i].val) else Applied(pred, s, effects[..i])
  {
    assert effects[..i + 1][..i] == effects[..i];
  }

  /** The effects that fire in pred, applied in order to s. */
  ghost function Applied(pred: Assignment, s: Assignment, effects: seq<Effect>): (r: Assignment)
    requires |s| == |pred| && OnVariables(|s|, effects)
    ensures |r| == |s|
  {
    if effects == [] then s
    else
      var front, e := effects[..|effects| - 1], effects[|effects| - 1];
      var s' := Applied(pred, s, front);
      if Fires(e, pred) then Updated(s', e.v, e.val) else s'
  }

  ghost predicate OnlyLastChanged(before: seq<seq<Word>>, after: seq<seq<Word>>) {
    |before| == |after| > 0 && after[..|after| - 1] == before[..|after| - 1]
  }

  ghost predicate EffectsFit(ranges: seq<Word>, effects: seq<Effect>) {
    forall e :: e in effects ==> e.v < |ranges| && e.val < ranges[e.v] && forall c :: c in e.conditions ==> c.v < |ranges|
  }

  // ---------- Packed states ----------

  /** Every stored buffer has the right size and zero padding. */
  ghost predicate WellPacked(ranges: seq<Word>, infos: seq<VariableInfo>, numBins: nat, contents: seq<seq<Word>>) {
    && IsLayout(ranges, Sizes(ranges), infos, numBins)
    && forall i :: 0 <= i < |contents| ==> |contents[i]| == numBins && Padded(infos, Sizes(ranges), contents[i])
  }

  ghost function StatesOf(ranges: seq<Word>, infos: seq<VariableInfo>, numBins: nat, contents: seq<seq<Word>>): seq<Assignment>
    requires WellPacked(ranges, infos, numBins, contents)
  {
    seq(|contents|, i requires 0 <= i < |contents| =>
      assert forall v :: 0 <= v < |infos| ==> Placed(infos[v], ranges[v], Sizes(ranges)[v], numBins);
      Values(infos, contents[i]))
  }

  /** The id set, compared by contents: every stored buffer is found under its own index. */
  ghost predicate Indexed(contents: seq<seq<Word>>, registered: map<seq<Word>, nat>) {
    && (forall i :: 0 <= i < |contents| ==> contents[i] in registered && registered[contents[i]] == i)
    && (forall c :: c in registered ==> registered[c] < |contents| && contents[registered[c]] == c)
  }

  lemma {:induction false} StatesDistinct(ranges: seq<Word>, infos: seq<VariableInfo>, numBins: nat, contents: seq<seq<Word>>,
                                          registered: map<seq<Word>, nat>)
    requires WellPacked(ranges, infos, numBins, contents) && Indexed(contents, registered)
    ensures Distinct(StatesOf(ranges, infos, numBins, contents))
  {
    hide IsLayout, Padded;
    var states := StatesOf(ranges, infos, numBins, contents);
    forall i, j | 0 <= i < j < |states| ensures states[i] != states[j] {
      if states[i] == states[j] {
        SameValuesSameBuffer(ranges, Sizes(ranges), infos, numBins, contents[i], contents[j]);
      }
    }
  }

  /** Looking a buffer up by its bits is looking its assignment up. */
  lemma {:induction false} InsertState(ranges: seq<Word>, infos: seq<VariableInfo>, numBins: nat, contents: seq<seq<Word>>,
                                       registered: map<seq<Word>, nat>, added: seq<Word>)
    requires WellPacked(ranges, infos, numBins, contents + [added]) && Indexed(contents, registered)
    ensures WellPacked(ranges, infos, numBins, contents)
    ensures var states := StatesOf(ranges, infos, numBins, contents);
      var s := StatesOf(ranges, infos, numBins, contents + [added])[|contents|];
      StatesOf(ranges, infos, numBins, contents + [added]) == states + [s]
      && (added in registered <==> s in states) && (added in registered ==> states[registered[added]] == s)
    ensures added !in registered ==> Indexed(contents + [added], registered[added := |contents|])
  {
    hide IsLayout, Padded, Values;
    assert WellPacked(ranges, infos, numBins, contents) by {
      assert forall i :: 0 <= i < |contents| ==> contents[i] == (contents + [added])[i];
    }
    var states := StatesOf(ranges, infos, numBins, contents);
    var states' := StatesOf(ranges, infos, numBins, contents + [added]);
    var s := states'[|contents|];
    forall i | 0 <= i < |states'| ensures states'[i] == (states + [s])[i] {
      assert i < |contents| ==> (contents + [added])[i] == contents[i];
    }
    assert (contents + [added])[|contents|] == added;
    if added in registered {
      assert states[registered[added]] == s;
    }
    if s in states {
      var i :| 0 <= i < |states| && states[i] == s;
      assert (contents + [added])[i] == contents[i] && (contents + [added])[|contents|] == added;
      SameValuesSameBuffer(ranges, Sizes(ranges), infos, numBins, contents[i], added);
    }
  }

  lemma {:induction false} BinsInRange(ranges: seq<Word>, infos: seq<VariableInfo>, numBins: nat)
    requires IsLayout(ranges, Sizes(ranges), infos, numBins)
    ensures |infos| == |ranges| == |Sizes(ranges)|
    ensures forall v :: 0 <= v < |infos| ==> 0 <= infos[v].binIndex < numBins
  {
    assert forall v :: 0 <= v < |infos| ==> Placed(infos[v], ranges[v], Sizes(ranges)[v], numBins);
  }

  /** Changing one variable of one stored buffer changes that variable of that state. */
  lemma {:induction false} ValueStored(ranges: seq<Word>, infos: seq<VariableInfo>, numBins: nat, contents: seq<seq<Word>>, index: nat,
                                       data: seq<Word>, v: nat, value: Word)
    requires WellPacked(ranges, infos, numBins, contents) && index < |contents| && v < |ranges| == |infos|
    requires |data| == numBins && Padded(infos, Sizes(ranges), data)
    requires forall w :: 0 <= w < |infos| ==> 0 <= infos[w].binIndex < numBins
    requires Values(infos, data) == Values(infos, contents[index])[v := value]
    ensures WellPacked(ranges, infos, numBins, contents[index := data])
    ensures var states := StatesOf(ranges, infos, numBins, contents);
      StatesOf(ranges, infos, numBins, contents[index := data]) == states[index := Updated(states[index], v, value)]
  {
    hide IsLayout, Padded, Values, Bit, Pow2;
  }

  class StateRegistry {
    const packer: IntPacker
    const stateDataPool: SegmentedArrayVector<Word>
    /** The hash set of ids; ids are hashed and compared by the data they lead to. */
    var registeredStates: map<seq<Word>, nat>
    ghost const ranges: seq<Word>

    ghost predicate Packed()
      reads packer, stateDataPool, stateDataPool.repr
    {
      && packer.Valid(ranges) && stateDataPool.Valid() && stateDataPool.elementsPerArray == packer.numBins
      && WellPacked(ranges, packer.varInfos, packer.numBins, stateDataPool.contents)
    }

    ghost predicate Valid()
      reads this, packer, stateDataPool, stateDataPool.repr
    {
      Packed() && Indexed(stateDataPool.contents, registeredStates) && |registeredStates| == |stateDataPool.contents|
    }

    /** The registered assignments, by id. */
    ghost function States(): seq<Assignment>
      requires Packed()
      reads packer, stateDataPool, stateDataPool.repr
    {
      StatesOf(ranges, packer.varInfos, packer.numBins, stateDataPool.contents)
    }

    /** The last state of the pool is not registered yet. */
    ghost predicate Pending()
      reads this, packer, stateDataPool, stateDataPool.repr
    {
      && Packed() && stateDataPool.contents != []
      && Indexed(stateDataPool.contents[..|stateDataPool.contents| - 1], registeredStates)
      && |registeredStates| == |stateDataPool.contents| - 1
    }

    constructor (packer: IntPacker, ghost ranges: seq<Word>)
      requires packer.Valid(ranges) && packer.numBins > 0
      ensures this.packer == packer && this.ranges == ranges && Valid() && States() == []
      ensures fresh(stateDataPool) && stateDataPool.repr == {}
    {
      this.packer, this.ranges := packer, ranges;
      stateDataPool := new SegmentedArrayVector<Word>(packer.numBins, 8);
      registeredStates := map[];
    }

    /** Registers the last state of the pool, or drops it when the same state is there already. */
    method InsertIdOrPopState() returns (id: nat)
      requires Pending()
      modifies this`registeredStates, stateDataPool`theSize, stateDataPool`contents
      ensures Valid()
      ensures var s := old(States())[|old(States())| - 1];
        States() == Registered(old(States())[..|old(States())| - 1], s) && id < |States()| && States()[id] == s
    {
      ghost var contents := stateDataPool.contents[..|stateDataPool.contents| - 1];
      ghost var added := stateDataPool.contents[|contents|];
      assert stateDataPool.contents == contents + [added];
      InsertState(ranges, packer.varInfos, packer.numBins, contents, registeredStates, added);
      id := stateDataPool.theSize - 1;
      var data := DataOf(id);
      if data in registeredStates {
        id := registeredStates[data];
        stateDataPool.PopBack();
      } else {
        registeredStates := registeredStates[data := id];
      }
    }

    method DataOf(id: nat) returns (data: seq<Word>)
      requires stateDataPool.Valid() && id < stateDataPool.theSize
      ensures data == stateDataPool.contents[id]
    {
      var segment, offset := stateDataPool.At(id);
      data := segment[offset..offset + stateDataPool.elementsPerArray];
    }

    method LookupState(id: nat, v: nat) returns (value: Word)
      requires Packed() && id < |States()| && v < |ranges|
      ensures value == States()[id][v]
    {
      var segment, offset := stateDataPool.At(id);
      value := packer.Get(segment, offset, v, ranges);
    }

    /** Writes through the pointer to a stored state; no other stored state is touched. */
    method SetInPlace(ghost index: nat, segment: array<Word>, offset: nat, v: nat, value: Word)
      requires Packed() && index < stateDataPool.theSize && segment in stateDataPool.repr
      requires stateDataPool.IsAt(segment, offset, index) && offset + packer.numBins <= segment.Length
      requires v < |ranges| && value < ranges[v]
      modifies segment
      ensures stateDataPool.Shaped() && forall i :: 0 <= i < stateDataPool.theSize && i != index ==> stateDataPool.Stored(i)
      ensures var slot := segment[offset..offset + packer.numBins];
        && Values(packer.varInfos, slot) == Values(packer.varInfos, stateDataPool.contents[index])[v := value]
        && Padded(packer.varInfos, Sizes(ranges), slot)
    {
      hide IsLayout, Padded, Values, Bit, Pow2, StatesOf;
      assert stateDataPool.Stored(index);
      assert segment[offset..offset + packer.numBins] == stateDataPool.contents[index];
      packer.Set(segment, offset, v, value, ranges);
      forall i | 0 <= i < stateDataPool.theSize && i != index ensures stateDataPool.Stored(i) {
        assert old(stateDataPool.Stored(i));
        stateDataPool.OtherSlot(i, index, segment, offset);
        var a, o := stateDataPool.segments[stateDataPool.GetSegment(i)], stateDataPool.GetOffset(i);
        assert a[o..o + packer.numBins] == old(a[o..o + packer.numBins]);
      }
    }

    /** Writes a variable of a stored state through the pointer to its data. */
    method SetVar(ghost index: nat, segment: array<Word>, offset: nat, v: nat, value: Word)
      requires Packed() && index < stateDataPool.theSize && segment in stateDataPool.repr
      requires stateDataPool.IsAt(segment, offset, index) && offset + packer.numBins <= segment.Length
      requires v < |ranges| && value < ranges[v]
      modifies segment, stateDataPool`contents
      ensures Packed() && stateDataPool.theSize == old(stateDataPool.theSize)
      ensures States() == old(States())[index := Updated(old(States())[index], v, value)]
      ensures forall i :: 0 <= i < stateDataPool.theSize && i != index ==> stateDataPool.contents[i] == old(stateDataPool.contents[i])
    {
      BinsInRange(ranges, packer.varInfos, packer.numBins);
      hide IsLayout, Padded, Values, Bit, Pow2, StatesOf;
      ghost var contents := stateDataPool.contents;
      SetInPlace(index, segment, offset, v, value);
      ghost var data := segment[offset..offset + packer.numBins];
      stateDataPool.RecordWrite(index, data);
      ValueStored(ranges, packer.varInfos, packer.numBins, contents, index, data, v, value);
    }

    lemma {:induction false} StateLengths()
      requires Packed()
      ensures |States()| == stateDataPool.theSize && forall i :: 0 <= i < |States()| ==> |States()[i]| == |ranges|
    {
    }

    method DoesFire(effect: Effect, segment: array<Word>, offset: nat, ghost id: nat) returns (fires: bool)
      requires Packed() && id < stateDataPool.theSize && offset + packer.numBins <= segment.Length
      requires segment[offset..offset + packer.numBins] == stateDataPool.contents[id]
      requires forall c :: c in effect.conditions ==> c.v < |ranges|
      ensures fires <==> Fires(effect, States()[id])
    {
      hide IsLayout, Padded, Values, Bit, Pow2;
      ghost var s := States()[id];
      StateLengths();
      for i := 0 to |effect.conditions|
        invariant forall c :: c in effect.conditions[..i] ==> c.v < |s| && s[c.v] == c.val
      {
        var c := effect.conditions[i];
        assert c in effect.conditions;
        var value := packer.Get(segment, offset, c.v, ranges);
        if value != c.val {
          return false;
        }
        assert effect.conditions[..i + 1] == effect.conditions[..i] + [c];
      }
      assert effect.conditions[..|effect.conditions|] == effect.conditions;
      return true;
    }

    /** The successor's propositional part: effects fire on the predecessor and are applied to a copy of it. */
    method GetSuccessorState(pred: nat, effects: seq<Effect>) returns (id: nat)
      requires Valid() && pred < |States()| && EffectsFit(ranges, effects)
      modifies this`registeredStates, stateDataPool, stateDataPool.repr
      ensures Valid() && fresh(stateDataPool.repr - old(stateDataPool.repr))
      ensures var p := old(States())[pred];
        |p| == |ranges| && OnVariables(|p|, effects) && id < |States()| && States()[id] == Applied(p, p, effects)
      ensures States() == Registered(old(States()), States()[id])
    {
      ghost var states, contents := States(), stateDataPool.contents;
      StateLengths();
      hide Packed, States, Indexed, PointersTo;
      var source, start, buffer, offset := CopyPredecessor(pred);
      assert stateDataPool.contents[..|contents|] == contents;
      ApplyEffects(pred, effects, source, start, buffer, offset);
      ghost var p := states[pred];
      ghost var s := Applied(p, p, effects);
      assert States() == states + [s];
      assert stateDataPool.contents[..|contents|] == contents;
      id := InsertIdOrPopState();
      assert (states + [s])[..|states|] == states;
    }

    /** Appends a copy of the predecessor's data; the two stay apart even when they share a segment. */
    method CopyPredecessor(pred: nat) returns (source: array<Word>, start: nat, buffer: array<Word>, offset: nat)
      requires Packed() && pred < stateDataPool.theSize
      modifies stateDataPool, stateDataPool.repr
      ensures Packed() && fresh(stateDataPool.repr - old(stateDataPool.repr))
      ensures stateDataPool.theSize == |stateDataPool.contents| == |States()| && pred < stateDataPool.theSize - 1
      ensures stateDataPool.contents == old(stateDataPool.contents) + [old(stateDataPool.contents)[pred]]
      ensures States() == old(States()) + [old(States())[pred]]
      ensures PointersTo(pred, source, start, buffer, offset)
    {
      hide IsLayout, Padded, Values, Bit, Pow2;
      source, start := stateDataPool.At(pred);
      stateDataPool.PushBack(source, start);
      buffer, offset := stateDataPool.At(stateDataPool.theSize - 1);
      source, start := stateDataPool.At(pred);
    }

    method ApplyEffects(ghost pred: nat, effects: seq<Effect>, source: array<Word>, start: nat, buffer: array<Word>, offset: nat)
      requires Packed() && |stateDataPool.contents| == stateDataPool.theSize && EffectsFit(ranges, effects)
      requires pred < stateDataPool.theSize - 1 && PointersTo(pred, source, start, buffer, offset)
      requires States()[stateDataPool.theSize - 1] == States()[pred]
      modifies stateDataPool`contents, stateDataPool.repr
      ensures Packed() && |stateDataPool.contents| == stateDataPool.theSize && |States()| == |old(States())|
      ensures OnlyLastChanged(old(stateDataPool.contents), stateDataPool.contents)
      ensures var p := old(States())[pred];
        |p| == |ranges| && OnVariables(|p|, effects) && States() == old(States())[|old(States())| - 1 := Applied(p, p, effects)]
    {
      hide *;
      ghost var before, contents := States(), stateDataPool.contents;
      StateLengths();
      ghost var p, last := before[pred], |before| - 1;
      FittingOnVariables(effects);
      NothingApplied(p, effects);
      assert OnlyLastChanged(contents, stateDataPool.contents) by {
        NothingChanged(contents);
      }
      for i := 0 to |effects|
        invariant Packed() && stateDataPool.theSize == |stateDataPool.contents| == last + 1
        invariant PointersTo(pred, source, start, buffer, offset)
        invariant OnlyLastChanged(contents, stateDataPool.contents)
        invariant OnVariables(|p|, effects[..i]) && States() == before[last := Applied(p, p, effects[..i])]
      {
        AppliedOneMore(p, p, effects, i);
        FitsAlone(effects, i);
        ghost var now := stateDataPool.contents;
        ApplyEffect(pred, effects[i], source, start, buffer, offset);
        StillOnlyLast(contents, now, stateDataPool.contents);
      }
      assert effects[..|effects|] == effects;
    }

    lemma {:induction false} FittingOnVariables(effects: seq<Effect>)
      requires EffectsFit(ranges, effects)
      ensures OnVariables(|ranges|, effects)
    {
      assert forall i :: 0 <= i < |effects| ==> effects[i] in effects;
    }

    lemma {:induction false} FitsAlone(effects: seq<Effect>, i: nat)
      requires EffectsFit(ranges, effects) && i < |effects|
      ensures EffectsFit(ranges, [effects[i]])
    {
      assert effects[i] in effects;
    }

    lemma {:induction false} NothingChanged(contents: seq<seq<Word>>)
      requires |contents| > 0
      ensures OnlyLastChanged(contents, contents)
    {
    }

    lemma {:induction false} StillOnlyLast(a: seq<seq<Word>>, b: seq<seq<Word>>, c: seq<seq<Word>>)
      requires OnlyLastChanged(a, b) && OnlyLastChanged(b, c)
      ensures OnlyLastChanged(a, c)
    {
    }

    lemma {:induction false} NothingApplied(p: Assignment, effects: seq<Effect>)
      ensures OnVariables(|p|, effects[..0]) && Applied(p, p, effects[..0]) == p
    {
    }

    /** One pointer leads to the predecessor and the other to its copy at the end of the pool. */
    ghost predicate PointersTo(pred: nat, source: array<Word>, start: nat, buffer: array<Word>, offset: nat)
      reads packer, stateDataPool
    {
      && source in stateDataPool.repr && stateDataPool.IsAt(source, start, pred) && start + packer.numBins <= source.Length
      && stateDataPool.theSize > 0
      && buffer in stateDataPool.repr && stateDataPool.IsAt(buffer, offset, stateDataPool.theSize - 1)
      && offset + packer.numBins <= buffer.Length
    }

    method ApplyEffect(ghost pred: nat, effect: Effect, source: array<Word>, start: nat, buffer: array<Word>, offset: nat)
      requires Packed() && pred < stateDataPool.theSize - 1 && EffectsFit(ranges, [effect])
      requires PointersTo(pred, source, start, buffer, offset)
      modifies stateDataPool`contents, stateDataPool.repr
      ensures Packed() && stateDataPool.theSize == old(stateDataPool.theSize) == |stateDataPool.contents|
      ensures PointersTo(pred, source, start, buffer, offset)
      ensures OnlyLastChanged(old(stateDataPool.contents), stateDataPool.contents)
      ensures |old(States())| == stateDataPool.theSize
      ensures var last := stateDataPool.theSize - 1;
        var s, p := old(States())[last], old(States())[pred];
        effect.v < |s| && States() == old(States())[last := if Fires(effect, p) then Updated(s, effect.v, effect.val) else s]
    {
      hide IsLayout, Padded, Values, Bit, Pow2;
      StateLengths();
      assert effect in [effect];
      assert source[start..start + packer.numBins] == stateDataPool.contents[pred] by {
        assert stateDataPool.Stored(pred);
      }
      var fires := DoesFire(effect, source, start, pred);
      if fires {
        SetVar(stateDataPool.theSize - 1, buffer, offset, effect.v, effect.val);
      }
    }

    /** Packs an assignment into a buffer that starts out zeroed, and registers it. */
    method RegisterInitialState(data: seq<Word>) returns (id: nat)
      requires Valid() && |data| == |ranges| && forall v :: 0 <= v < |data| ==> data[v] < ranges[v]
      modifies this`registeredStates, stateDataPool, stateDataPool.repr
      ensures Valid() && fresh(stateDataPool.repr - old(stateDataPool.repr))
      ensures id < |States()| && States()[id] == data && States() == Registered(old(States()), data)
    {
      ghost var states, contents := States(), stateDataPool.contents;
      hide IsLayout, Padded, Values, Bit, Pow2, StatesOf, Indexed;
      var buffer := PackState(data);
      assert buffer !in stateDataPool.repr;
      stateDataPool.PushBack(buffer, 0);
      assert buffer[0..packer.numBins] == buffer[..];
      PushedState(contents, buffer[..], data);
      assert States() == states + [data];
      id := InsertIdOrPopState();
      assert (states + [data])[..|states|] == states;
    }

    lemma {:induction false} PushedState(contents: seq<seq<Word>>, added: seq<Word>, data: Assignment)
      requires packer.Valid(ranges) && WellPacked(ranges, packer.varInfos, packer.numBins, contents)
      requires |added| == packer.numBins && Padded(packer.varInfos, Sizes(ranges), added)
      requires (forall v :: 0 <= v < |packer.varInfos| ==> 0 <= packer.varInfos[v].binIndex < |added|)
      requires Values(packer.varInfos, added) == data
      ensures WellPacked(ranges, packer.varInfos, packer.numBins, contents + [added])
      ensures StatesOf(ranges, packer.varInfos, packer.numBins, contents + [added]) ==
        StatesOf(ranges, packer.varInfos, packer.numBins, contents) + [data]
    {
      hide IsLayout, Padded, Values;
    }

    method PackState(data: seq<Word>) returns (buffer: array<Word>)
      requires packer.Valid(ranges) && |data| == |ranges| && forall v :: 0 <= v < |data| ==> data[v] < ranges[v]
      ensures fresh(buffer) && buffer.Length == packer.numBins && Padded(packer.varInfos, Sizes(ranges), buffer[..])
      ensures forall v :: 0 <= v < |packer.varInfos| ==> 0 <= packer.varInfos[v].binIndex < buffer.Length
      ensures Values(packer.varInfos, buffer[..]) == data
    {
      BinsInRange(ranges, packer.varInfos, packer.numBins);
      hide IsLayout, Padded, Values, Bit, Pow2, Sizes;
      buffer := new Word[packer.numBins](_ => 0);
      assert buffer[..] == seq(packer.numBins, _ => 0);
      assert buffer[0..packer.numBins] == buffer[..];
      ZeroBuffer(ranges, Sizes(ranges), packer.varInfos, packer.numBins);
      ghost var values: Assignment := seq(|ranges|, _ => 0);
      for v := 0 to |data|
        invariant packer.Valid(ranges) && Padded(packer.varInfos, Sizes(ranges), buffer[0..packer.numBins])
        invariant Values(packer.varInfos, buffer[0..packer.numBins]) == values
        invariant |values| == |data| && forall w :: 0 <= w < v ==> values[w] == data[w]
      {
        packer.Set(buffer, 0, v, data[v], ranges);
        values := Updated(values, v, data[v]);
      }
      assert buffer[0..packer.numBins] == buffer[..];
    }
  }
}

