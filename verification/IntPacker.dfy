/** Bit fields of varying width in 64-bit bins (src/search/int_packer.cc). */
module IntPacker {
  import opened Bits

  ghost predicate InRange(range: Word) {
    2 <= range && (range < Pow2(32) || range == MAX)
  }

  /** The least number of bits that can hold every value below range; the largest word asks for a whole bin. */
  ghost predicate IsBitSize(range: Word, bits: nat) {
    if range == MAX then bits == WIDTH else range <= Pow2(bits) && (0 < bits ==> Pow2(bits - 1) < range)
  }

  lemma {:induction false} BitSizeUnique(range: Word, a: nat, b: nat)
    requires IsBitSize(range, a) && IsBitSize(range, b)
    ensures a == b
  {
    if range != MAX {
      if a < b {
        Pow2Mono(a, b - 1);
      } else if b < a {
        Pow2Mono(b, a - 1);
      }
    }
  }

  ghost predicate HoldsBits(mask: nat, from: nat, to: nat) {
    forall i {:trigger Bit(mask, i)} :: 0 <= i < WIDTH ==> (Bit(mask, i) <==> from <= i < to)
  }

  /** The mask with the bits in [from, to) set. */
  function GetBitMask(from: nat, to: nat): (mask: Word)
    requires from <= to <= WIDTH
    ensures HoldsBits(mask, from, to)
  {
    var length := to - from;
    if length == WIDTH then
      MaskOfAll();
      Complement(0)
    else
      MaskOfSome(from, length);
      ShiftLeft(ShiftLeft(1, length) - 1, from)
  }

  lemma {:induction false} MaskOfAll()
    ensures HoldsBits(Complement(0), 0, WIDTH)
  {
    forall i | 0 <= i < WIDTH ensures Bit(Complement(0), i) {
      BitOnes(WIDTH, i);
    }
  }

  lemma {:induction false} MaskOfSome(from: nat, length: nat)
    requires from + length <= WIDTH && length < WIDTH
    ensures ShiftLeft(1, length) > 0
    ensures HoldsBits(ShiftLeft(ShiftLeft(1, length) - 1, from), from, from + length)
  {
    ShiftPower(0, length);
    var ones: Word := Pow2(length) - 1;
    forall i | 0 <= i < WIDTH ensures Bit(ShiftLeft(ones, from), i) <==> from <= i < from + length {
      BitShiftLeft(ones, from, i);
      if from <= i {
        BitOnes(length, i - from);
      }
    }
  }

  /** The cast keeps the low 32 bits. */
  function AsUnsignedInt(range: Word): nat {
    range % Pow2(32)
  }

  lemma {:induction false} UnsignedRange(range: Word)
    requires 2 <= range < Pow2(32)
    ensures AsUnsignedInt(range) == range && Pow2(0) < range
  {
    SmallMod(range, Pow2(32));
  }

  lemma {:induction false} SmallMod(x: nat, m: nat)
    requires x < m
    ensures x % m == x
  {
  }

  method GetBitSizeForRange(range: Word) returns (numBits: nat)
    requires InRange(range)
    ensures IsBitSize(range, numBits) && 1 <= numBits <= WIDTH
  {
    if range == MAX {
      return WIDTH;
    }
    hide Pow2;
    UnsignedRange(range);
    numBits := 0;
    while Pow2(numBits) < AsUnsignedInt(range)
      invariant numBits <= 32 && (0 < numBits ==> Pow2(numBits - 1) < range)
      decreases 32 - numBits
    {
      numBits := numBits + 1;
    }
  }

  // ---------- One field ----------

  datatype VariableInfo = VariableInfo(range: Word, binIndex: int, shift: nat, readMask: Word, clearMask: Word)

  /** The entries that a resized table starts with. */
  const UNPACKED := VariableInfo(0, -1, 0, 0, 0)

  /** The field occupies bits [shift, shift + bits) of its bin. */
  ghost predicate IsField(info: VariableInfo, bits: nat) {
    && IsBitSize(info.range, bits) && info.shift + bits <= WIDTH
    && HoldsBits(info.readMask, info.shift, info.shift + bits)
    && info.clearMask == Complement(info.readMask)
  }

  method NewVariableInfo(range: Word, binIndex: nat, shift: nat, ghost bits: nat) returns (info: VariableInfo)
    requires InRange(range) && IsBitSize(range, bits) && shift + bits <= WIDTH
    ensures IsField(info, bits) && info.range == range && info.binIndex == binIndex && info.shift == shift
  {
    var bitSize := GetBitSizeForRange(range);
    BitSizeUnique(range, bits, bitSize);
    var readMask := GetBitMask(shift, shift + bitSize);
    info := VariableInfo(range, binIndex, shift, readMask, Complement(readMask));
  }

  function GetField(bin: Word, info: VariableInfo): Word {
    ShiftRight(And(bin, info.readMask), info.shift)
  }

  function SetField(bin: Word, info: VariableInfo, value: Word): Word {
    OrBound(And(bin, info.clearMask), ShiftLeft(value, info.shift), WIDTH);
    Or(And(bin, info.clearMask), ShiftLeft(value, info.shift))
  }

  /** A value below the range fits the width of the field. */
  lemma {:induction false} ValueFits(info: VariableInfo, bits: nat, value: Word)
    requires IsField(info, bits) && value < info.range
    ensures value < Pow2(bits)
  {
    assert IsBitSize(info.range, bits);
  }

  /** Setting a value that fits writes it into the field's own bits and leaves all other bits. */
  lemma {:induction false} SetBits(bin: Word, info: VariableInfo, bits: nat, value: Word, i: nat)
    requires IsField(info, bits) && value < Pow2(bits) && i < WIDTH
    ensures Bit(SetField(bin, info, value), i) <==>
      if info.shift <= i < info.shift + bits then Bit(value, i - info.shift) else Bit(bin, i)
  {
    SetAnyBits(bin, info, bits, value, i);
    if info.shift + bits <= i {
      BitSmall(value, bits, i - info.shift);
    }
  }

  /** Setting any word keeps the bits outside the field and adds what the shifted value has there. */
  lemma {:induction false} SetAnyBits(bin: Word, info: VariableInfo, bits: nat, value: Word, i: nat)
    requires IsField(info, bits) && i < WIDTH
    ensures Bit(SetField(bin, info, value), i) <==>
      (info.shift <= i && Bit(value, i - info.shift)) || (!(info.shift <= i < info.shift + bits) && Bit(bin, i))
  {
    hide Pow2, Bit, IsBitSize;
    BitOr(And(bin, info.clearMask), ShiftLeft(value, info.shift), i);
    BitAnd(bin, info.clearMask, i);
    BitFlip(info.readMask, WIDTH, i);
    BitShiftLeft(value, info.shift, i);
  }

  lemma {:induction false} GetBits(bin: Word, info: VariableInfo, bits: nat, i: nat)
    requires IsField(info, bits)
    ensures Bit(GetField(bin, info), i) <==> i < bits && Bit(bin, info.shift + i)
  {
    hide Pow2, Bit, IsBitSize;
    BitShiftRight(And(bin, info.readMask), info.shift, i);
    BitAnd(bin, info.readMask, info.shift + i);
    if WIDTH <= info.shift + i {
      BitSmall(bin, WIDTH, info.shift + i);
    }
  }

  /** A field gives back what was written exactly when the value fits its width: the asserted value == range may not. */
  lemma {:induction false} RoundTrip(bin: Word, info: VariableInfo, bits: nat, value: Word)
    requires IsField(info, bits)
    ensures GetField(SetField(bin, info, value), info) == value <==> value < Pow2(bits)
  {
    hide Pow2, Bit, GetField, SetField, IsField;
    var got := GetField(SetField(bin, info, value), info);
    FieldInWord(info, bits);
    forall i | bits <= i < WIDTH ensures !Bit(got, i) {
      GetBits(SetField(bin, info, value), info, bits, i);
    }
    NoHighBits(got, bits, WIDTH);
    if value < Pow2(bits) {
      forall i | 0 <= i < WIDTH ensures Bit(got, i) <==> Bit(value, i) {
        GetBits(SetField(bin, info, value), info, bits, i);
        if i < bits {
          SetOwnBits(bin, info, bits, value, info.shift + i);
        } else {
          BitSmall(value, bits, i);
        }
      }
      SameBits(got, value, WIDTH);
    }
  }

  lemma {:induction false} SetOwnBits(bin: Word, info: VariableInfo, bits: nat, value: Word, i: nat)
    requires IsField(info, bits) && info.shift <= i < info.shift + bits
    ensures Bit(SetField(bin, info, value), i) <==> Bit(value, i - info.shift)
  {
    hide Pow2, Bit, IsBitSize;
    SetAnyBits(bin, info, bits, value, i);
  }

  /** The assertion of the source lets the range itself through, which a field of a power-of-two range loses. */
  lemma {:induction false} RangeIsLost(bin: Word, info: VariableInfo, bits: nat)
    requires IsField(info, bits) && info.range == Pow2(bits)
    ensures GetField(SetField(bin, info, info.range), info) != info.range
  {
    RoundTrip(bin, info, bits, info.range);
  }

  lemma {:induction false} GetAfterSet(bin: Word, info: VariableInfo, bits: nat, value: Word)
    requires IsField(info, bits) && value < info.range
    ensures GetField(SetField(bin, info, value), info) == value
  {
    ValueFits(info, bits, value);
    RoundTrip(bin, info, bits, value);
  }

  lemma {:induction false} FieldInWord(info: VariableInfo, bits: nat)
    requires IsField(info, bits)
    ensures info.shift + bits <= WIDTH
  {
  }

  ghost predicate Apart(a: VariableInfo, aBits: nat, b: VariableInfo, bBits: nat) {
    a.binIndex != b.binIndex || a.shift + aBits <= b.shift || b.shift + bBits <= a.shift
  }

  lemma {:induction false} GetAfterOtherSet(bin: Word, info: VariableInfo, bits: nat, other: VariableInfo, otherBits: nat, value: Word)
    requires IsField(info, bits) && IsField(other, otherBits) && value < Pow2(otherBits)
    requires Apart(info, bits, other, otherBits) && info.binIndex == other.binIndex
    ensures GetField(SetField(bin, other, value), info) == GetField(bin, info)
  {
    hide Pow2, Bit, GetField, SetField, IsField;
    var bin' := SetField(bin, other, value);
    forall i | 0 <= i < WIDTH ensures Bit(GetField(bin', info), i) <==> Bit(GetField(bin, info), i) {
      GetBits(bin', info, bits, i);
      GetBits(bin, info, bits, i);
      if i < bits {
        FieldInWord(info, bits);
        SetBits(bin, other, otherBits, value, info.shift + i);
      }
    }
    SameBits(GetField(bin', info), GetField(bin, info), WIDTH);
  }

  /** The least value that does not fit changes one bit behind its field, and so the variable that has that bit, unless it is set. */
  lemma {:induction false} OverflowDamages(bin: Word, info: VariableInfo, bits: nat, other: VariableInfo, otherBits: nat, value: Word)
    requires IsField(info, bits) && IsField(other, otherBits) && value == Pow2(otherBits)
    requires Apart(info, bits, other, otherBits) && info.binIndex == other.binIndex
    ensures var damaged := other.shift + otherBits;
      GetField(SetField(bin, other, value), info) == GetField(bin, info) <==>
      !(info.shift <= damaged < info.shift + bits) || Bit(bin, damaged)
  {
    hide Pow2, Bit, GetField, SetField, IsField;
    var bin', damaged := SetField(bin, other, value), other.shift + otherBits;
    FieldInWord(info, bits);
    forall i | 0 <= i < WIDTH
      ensures Bit(GetField(bin', info), i) <==> Bit(GetField(bin, info), i) || (i < bits && info.shift + i == damaged)
    {
      GetBits(bin', info, bits, i);
      GetBits(bin, info, bits, i);
      if i < bits {
        SetAnyBits(bin, other, otherBits, value, info.shift + i);
        if other.shift <= info.shift + i {
          BitPow2(otherBits, info.shift + i - other.shift);
        }
      }
    }
    if info.shift <= damaged < info.shift + bits {
      GetBits(bin, info, bits, damaged - info.shift);
      assert Bit(GetField(bin', info), damaged - info.shift);
    }
    if !(info.shift <= damaged < info.shift + bits) || Bit(bin, damaged) {
      SameBits(GetField(bin', info), GetField(bin, info), WIDTH);
    }
  }

  // ---------- The layout of all variables ----------

  ghost predicate BitSizes(ranges: seq<Word>, bits: seq<nat>) {
    && |bits| == |ranges|
    && forall v :: 0 <= v < |ranges| ==> InRange(ranges[v]) && IsBitSize(ranges[v], bits[v]) && 1 <= bits[v] <= WIDTH
  }

  ghost predicate Placed(info: VariableInfo, range: Word, bits: nat, numBins: nat) {
    0 <= info.binIndex < numBins && info.range == range && IsField(info, bits)
  }

  /** Whatever is packed so far has its own field. */
  ghost predicate PartialLayout(ranges: seq<Word>, bits: seq<nat>, infos: seq<VariableInfo>, numBins: nat) {
    && |infos| == |ranges| == |bits|
    && (forall v :: 0 <= v < |infos| ==> infos[v].binIndex == -1 || Placed(infos[v], ranges[v], bits[v], numBins))
    && (forall v, w :: 0 <= v < w < |infos| && infos[v].binIndex != -1 && infos[w].binIndex != -1 ==>
          Apart(infos[v], bits[v], infos[w], bits[w]))
  }

  /** Every variable has one field inside one bin, and no two fields overlap. */
  ghost predicate IsLayout(ranges: seq<Word>, bits: seq<nat>, infos: seq<VariableInfo>, numBins: nat) {
    && |infos| == |ranges| == |bits|
    && (forall v :: 0 <= v < |infos| ==> Placed(infos[v], ranges[v], bits[v], numBins))
    && (forall v, w :: 0 <= v < w < |infos| ==> Apart(infos[v], bits[v], infos[w], bits[w]))
  }

  /** The number of bits that a bin's variables need. */
  ghost function UsedBits(infos: seq<VariableInfo>, bits: seq<nat>, bin: int): nat
    requires |infos| == |bits|
  {
    if infos == [] then 0
    else UsedBits(infos[1..], bits[1..], bin) + if infos[0].binIndex == bin then bits[0] else 0
  }

  ghost function TotalBits(bits: seq<nat>): nat {
    if bits == [] then 0 else bits[0] + TotalBits(bits[1..])
  }

  ghost function SumOfBins(infos: seq<VariableInfo>, bits: seq<nat>, numBins: nat): nat
    requires |infos| == |bits|
  {
    if numBins == 0 then 0 else SumOfBins(infos, bits, numBins - 1) + UsedBits(infos, bits, numBins - 1)
  }

  lemma {:induction false} SumOfBinsSplit(infos: seq<VariableInfo>, bits: seq<nat>, numBins: nat)
    requires |infos| == |bits| > 0 && 0 <= infos[0].binIndex
    ensures SumOfBins(infos, bits, numBins) ==
      SumOfBins(infos[1..], bits[1..], numBins) + if infos[0].binIndex < numBins then bits[0] else 0
  {
    if numBins > 0 {
      SumOfBinsSplit(infos, bits, numBins - 1);
    }
  }

  lemma {:induction false} NoBits(numBins: nat)
    ensures SumOfBins([], [], numBins) == 0
  {
    if numBins > 0 {
      NoBits(numBins - 1);
    }
  }

  lemma {:induction false} BinsHoldAll(infos: seq<VariableInfo>, bits: seq<nat>, numBins: nat)
    requires |infos| == |bits| && forall v :: 0 <= v < |infos| ==> 0 <= infos[v].binIndex < numBins
    ensures SumOfBins(infos, bits, numBins) == TotalBits(bits)
  {
    if infos == [] {
      NoBits(numBins);
    } else {
      SumOfBinsSplit(infos, bits, numBins);
      BinsHoldAll(infos[1..], bits[1..], numBins);
    }
  }

  /** If all bins but the last are more than half full, few bins are used. */
  lemma {:induction false} FewBins(infos: seq<VariableInfo>, bits: seq<nat>, numBins: nat, k: nat)
    requires |infos| == |bits| && k <= numBins
    requires forall b :: 0 <= b < k ==> UsedBits(infos, bits, b) > 32
    ensures 33 * k <= SumOfBins(infos, bits, k) <= SumOfBins(infos, bits, numBins)
    decreases numBins, k
  {
    if k < numBins {
      FewBins(infos, bits, numBins - 1, k);
    } else if k > 0 {
      FewBins(infos, bits, k - 1, k - 1);
    }
  }

  lemma {:induction false} UsedBitsUpdate(infos: seq<VariableInfo>, bits: seq<nat>, v: nat, info: VariableInfo, bin: int)
    requires |infos| == |bits| && v < |infos| && infos[v].binIndex == -1 && 0 <= bin
    ensures UsedBits(infos[v := info], bits, bin) == UsedBits(infos, bits, bin) + if info.binIndex == bin then bits[v] else 0
  {
    if v > 0 {
      assert infos[v := info][1..] == infos[1..][v - 1 := info];
      UsedBitsUpdate(infos[1..], bits[1..], v - 1, info, bin);
    } else {
      assert infos[v := info][1..] == infos[1..];
    }
  }

  ghost function CountPacked(infos: seq<VariableInfo>): nat {
    if infos == [] then 0 else CountPacked(infos[1..]) + if infos[0].binIndex == -1 then 0 else 1
  }

  lemma {:induction false} CountUpdate(infos: seq<VariableInfo>, v: nat, info: VariableInfo)
    requires v < |infos| && infos[v].binIndex == -1 && info.binIndex != -1
    ensures CountPacked(infos[v := info]) == CountPacked(infos) + 1
  {
    if v > 0 {
      assert infos[v := info][1..] == infos[1..][v - 1 := info];
      CountUpdate(infos[1..], v - 1, info);
    } else {
      assert infos[v := info][1..] == infos[1..];
    }
  }

  lemma {:induction false} CountAll(infos: seq<VariableInfo>)
    ensures CountPacked(infos) <= |infos|
    ensures CountPacked(infos) == |infos| <==> forall v :: 0 <= v < |infos| ==> infos[v].binIndex != -1
  {
    if infos != [] {
      CountAll(infos[1..]);
      assert forall v :: 1 <= v < |infos| ==> infos[1..][v - 1] == infos[v];
    }
  }

  lemma {:induction false} CountNone(infos: seq<VariableInfo>)
    requires forall v :: 0 <= v < |infos| ==> infos[v].binIndex == -1
    ensures CountPacked(infos) == 0
  {
    if infos != [] {
      CountNone(infos[1..]);
    }
  }

  lemma {:induction false} UsedNone(infos: seq<VariableInfo>, bits: seq<nat>, bin: nat)
    requires |infos| == |bits| && forall v :: 0 <= v < |infos| ==> infos[v].binIndex != bin
    ensures UsedBits(infos, bits, bin) == 0
  {
    if infos != [] {
      UsedNone(infos[1..], bits[1..], bin);
    }
  }

  // ---------- Packing ----------

  ghost predicate Descending(s: seq<nat>) {
    forall i, j :: 0 <= i < j < |s| ==> s[j] < s[i]
  }

  lemma {:induction false} AddLower(s: seq<nat>, v: nat)
    requires Descending(s) && forall w :: w in s ==> v < w
    ensures Descending(s + [v])
  {
    assert forall i :: 0 <= i < |s| ==> s[i] in s;
  }

  /** lists[k] holds the unpacked variables of k bits, the lowest one last. */
  ghost predicate Indexes(lists: seq<seq<nat>>, infos: seq<VariableInfo>, bits: seq<nat>) {
    && |lists| == WIDTH + 1 && |infos| == |bits|
    && (forall k :: 0 <= k <= WIDTH ==> Descending(lists[k]))
    && (forall k: nat, v: nat {:trigger v in lists[k]} :: k <= WIDTH ==>
          (v in lists[k] <==> v < |infos| && bits[v] == k && infos[v].binIndex == -1))
  }

  /** As above with the variables below v still to come. */
  ghost predicate IndexesFrom(lists: seq<seq<nat>>, bits: seq<nat>, v: nat) {
    && |lists| == WIDTH + 1 && v <= |bits|
    && (forall k :: 0 <= k <= WIDTH ==> Descending(lists[k]))
    && (forall k: nat, w: nat {:trigger w in lists[k]} :: k <= WIDTH ==> (w in lists[k] <==> v <= w < |bits| && bits[w] == k))
  }

  lemma {:induction false} IndexNext(lists: seq<seq<nat>>, bits: seq<nat>, v: nat, size: nat)
    requires IndexesFrom(lists, bits, v + 1) && size <= WIDTH && bits[v] == size
    ensures IndexesFrom(lists[size := lists[size] + [v]], bits, v)
  {
    AddLower(lists[size], v);
    hide Descending;
    var lists' := lists[size := lists[size] + [v]];
    forall k: nat, w: nat | k <= WIDTH ensures w in lists'[k] <==> v <= w < |bits| && bits[w] == k {
      assert w in lists[k] <==> v + 1 <= w < |bits| && bits[w] == k;
      assert k != size ==> lists'[k] == lists[k];
    }
    assert forall k: nat, w: nat {:trigger w in lists'[k]} :: k <= WIDTH ==> (w in lists'[k] <==> v <= w < |bits| && bits[w] == k);
  }

  lemma {:induction false} IndexNothing(bits: seq<nat>, lists: seq<seq<nat>>)
    requires lists == seq(WIDTH + 1, _ => [])
    ensures IndexesFrom(lists, bits, |bits|)
  {
  }

  lemma {:induction false} IndexAll(lists: seq<seq<nat>>, infos: seq<VariableInfo>, bits: seq<nat>)
    requires IndexesFrom(lists, bits, 0) && infos == seq(|bits|, _ => UNPACKED)
    ensures Indexes(lists, infos, bits)
  {
    hide Descending;
  }

  /** All fields of the bin end at or before the given bit. */
  ghost predicate EndsBy(infos: seq<VariableInfo>, bits: seq<nat>, bin: int, used: nat) {
    |infos| == |bits| && forall v :: 0 <= v < |infos| && infos[v].binIndex == bin ==> infos[v].shift + bits[v] <= used
  }

  ghost predicate UnpackedAtMost(infos: seq<VariableInfo>, bits: seq<nat>, limit: nat) {
    |infos| == |bits| && forall v :: 0 <= v < |infos| && infos[v].binIndex == -1 ==> bits[v] <= limit
  }

  /** y gets its field after x, or has none yet. */
  ghost predicate IsLater(x: VariableInfo, y: VariableInfo) {
    y.binIndex == -1 || x.binIndex < y.binIndex || (x.binIndex == y.binIndex && x.shift < y.shift)
  }

  /** w is no better choice than v for a bin with that many used bits: smaller, as large with a higher number, or too large. */
  ghost predicate GivesWay(bits: seq<nat>, v: nat, w: nat, used: nat)
    requires v < |bits| && w < |bits|
  {
    bits[w] < bits[v] || (bits[w] == bits[v] && v < w) || WIDTH < used + bits[w]
  }

  /** Every variable was, when it got its field, the largest that fitted, and the lowest among those. */
  ghost predicate LargestFirst(infos: seq<VariableInfo>, bits: seq<nat>) {
    && |infos| == |bits|
    && forall v: nat, w: nat :: v < |infos| && w < |infos| && v != w && infos[v].binIndex != -1 && IsLater(infos[v], infos[w]) ==>
         GivesWay(bits, v, w, infos[v].shift)
  }

  /** The fields of the bin leave no gap, and no variable behind it would have fitted. */
  ghost predicate IsFull(infos: seq<VariableInfo>, bits: seq<nat>, bin: nat) {
    && |infos| == |bits| && EndsBy(infos, bits, bin, UsedBits(infos, bits, bin))
    && forall w :: 0 <= w < |infos| && (infos[w].binIndex == -1 || bin < infos[w].binIndex) ==>
         bits[w] > WIDTH - UsedBits(infos, bits, bin)
  }

  ghost predicate AllFull(infos: seq<VariableInfo>, bits: seq<nat>, numBins: nat) {
    forall b: nat :: b < numBins ==> IsFull(infos, bits, b)
  }

  lemma {:induction false} StaysFull(infos: seq<VariableInfo>, bits: seq<nat>, numBins: nat, v: nat, info: VariableInfo)
    requires AllFull(infos, bits, numBins) && |infos| == |bits| && v < |infos| && infos[v].binIndex == -1 && numBins <= info.binIndex
    ensures AllFull(infos[v := info], bits, numBins)
  {
    var infos' := infos[v := info];
    forall b: nat | b < numBins ensures IsFull(infos', bits, b) {
      hide UsedBits;
      assert IsFull(infos, bits, b);
      UsedBitsUpdate(infos, bits, v, info, b);
    }
  }

  lemma {:induction false} OneMoreFull(infos: seq<VariableInfo>, bits: seq<nat>, bin: nat)
    requires AllFull(infos, bits, bin) && IsFull(infos, bits, bin)
    ensures AllFull(infos, bits, bin + 1)
  {
    hide IsFull;
  }

  /** Taking the lowest variable of the largest size that fits keeps the order. */
  lemma {:induction false} TakeLargest(lists: seq<seq<nat>>, infos: seq<VariableInfo>, bits: seq<nat>, size: nat, used: nat, v: nat,
                                       info: VariableInfo)
    requires LargestFirst(infos, bits) && Indexes(lists, infos, bits) && size <= WIDTH - used && lists[size] != []
    requires forall k :: size < k <= WIDTH - used ==> lists[k] == []
    requires v == lists[size][|lists[size]| - 1] && v < |infos| && infos[v].binIndex == -1 && bits[v] == size
    requires info.binIndex >= 0 && info.shift == used && EndsBy(infos, bits, info.binIndex, used)
    requires forall w :: 0 <= w < |infos| ==> infos[w].binIndex <= info.binIndex
    ensures LargestFirst(infos[v := info], bits)
  {
    NoneBetween(lists, infos, bits, size, WIDTH - used);
    forall w: nat | w < |infos| && w != v && infos[w].binIndex == -1 ensures GivesWay(bits, v, w, used) {
      if bits[w] == size {
        LastIsLowest(lists, infos, bits, size, w);
      }
    }
    hide Indexes, GivesWay;
    var infos' := infos[v := info];
    forall x: nat, w: nat | x < |infos| && w < |infos| && x != w && infos'[x].binIndex != -1 && IsLater(infos'[x], infos'[w])
      ensures GivesWay(bits, x, w, infos'[x].shift)
    {
      assert x != v ==> IsLater(infos[x], infos[w]);
      assert x == v ==> infos[w].binIndex == -1;
    }
  }

  lemma {:induction false} LastIsLowest(lists: seq<seq<nat>>, infos: seq<VariableInfo>, bits: seq<nat>, size: nat, w: nat)
    requires Indexes(lists, infos, bits) && size <= WIDTH && w < |infos| && infos[w].binIndex == -1 && bits[w] == size
    ensures lists[size] != [] && lists[size][|lists[size]| - 1] <= w
  {
    assert w in lists[size] && Descending(lists[size]);
  }

  lemma {:induction false} PlaceNext(ranges: seq<Word>, bits: seq<nat>, infos: seq<VariableInfo>, numBins: nat, used: nat, v: nat,
                                     info: VariableInfo)
    requires PartialLayout(ranges, bits, infos, numBins) && v < |infos| && infos[v].binIndex == -1 && numBins > 0
    requires EndsBy(infos, bits, numBins - 1, used)
    requires IsField(info, bits[v]) && info.range == ranges[v] && info.binIndex == numBins - 1 && info.shift == used
    ensures PartialLayout(ranges, bits, infos[v := info], numBins)
    ensures EndsBy(infos[v := info], bits, numBins - 1, used + bits[v])
  {
    hide IsField, Pow2;
    var infos' := infos[v := info];
    assert Placed(info, ranges[v], bits[v], numBins);
    forall a, b | 0 <= a < b < |infos'| && infos'[a].binIndex != -1 && infos'[b].binIndex != -1
      ensures Apart(infos'[a], bits[a], infos'[b], bits[b])
    {
    }
  }

  lemma {:induction false} TakeLast(lists: seq<seq<nat>>, infos: seq<VariableInfo>, bits: seq<nat>, k: nat, v: nat,
                                    info: VariableInfo, lists': seq<seq<nat>>)
    requires Indexes(lists, infos, bits) && k <= WIDTH && lists[k] != [] && v == lists[k][|lists[k]| - 1] && v < |infos|
    requires lists' == lists[k := lists[k][..|lists[k]| - 1]]
    requires info.binIndex != -1
    ensures Indexes(lists', infos[v := info], bits)
  {
    var rest, infos' := lists[k][..|lists[k]| - 1], infos[v := info];
    assert lists[k] == rest + [v] && lists'[k] == rest;
    assert v in lists[k] && Descending(lists[k]);
    RestDescending(rest, v);
    forall j | 0 <= j <= WIDTH ensures Descending(lists'[j]) {
      assert j != k ==> lists'[j] == lists[j] && Descending(lists[j]);
    }
    hide Descending;
    forall j: nat, w: nat | j <= WIDTH
      ensures w in lists'[j] <==> w < |infos'| && bits[w] == j && infos'[w].binIndex == -1
    {
      assert w in lists[j] <==> w < |infos| && bits[w] == j && infos[w].binIndex == -1;
      assert j == k ==> (w in lists[j] <==> w in rest || w == v);
      assert j != k ==> lists'[j] == lists[j];
    }
    assert forall j: nat, w: nat {:trigger w in lists'[j]} :: j <= WIDTH ==>
      (w in lists'[j] <==> w < |infos'| && bits[w] == j && infos'[w].binIndex == -1);
  }

  lemma {:induction false} RestDescending(rest: seq<nat>, v: nat)
    requires Descending(rest + [v])
    ensures Descending(rest) && forall w :: w in rest ==> v < w
  {
    var s := rest + [v];
    assert forall i :: 0 <= i < |rest| ==> s[i] == rest[i] && s[|rest|] == v;
  }

  /** No unpacked variable of more than k bits fits, as the lists between k and the room left are empty. */
  lemma {:induction false} NoneBetween(lists: seq<seq<nat>>, infos: seq<VariableInfo>, bits: seq<nat>, k: nat, room: nat)
    requires Indexes(lists, infos, bits) && k <= room <= WIDTH
    requires forall j :: k < j <= room ==> lists[j] == []
    ensures forall v :: 0 <= v < |infos| && infos[v].binIndex == -1 ==> bits[v] <= k || room < bits[v]
  {
    forall v | 0 <= v < |infos| && infos[v].binIndex == -1 ensures bits[v] <= k || room < bits[v] {
      if bits[v] <= WIDTH {
        assert v in lists[bits[v]];
      }
    }
  }

  lemma {:induction false} NothingPacked(ranges: seq<Word>, bits: seq<nat>, infos: seq<VariableInfo>)
    requires |infos| == |ranges| == |bits| && forall v :: 0 <= v < |infos| ==> infos[v].binIndex == -1
    ensures PartialLayout(ranges, bits, infos, 0)
  {
  }

  /** The state between two bins: all but a last, incomplete one are more than half full. */
  ghost predicate PackedSoFar(ranges: seq<Word>, bits: seq<nat>, infos: seq<VariableInfo>, numBins: nat, bitsToVars: seq<seq<nat>>, packed: nat) {
    && BitSizes(ranges, bits) && |infos| == |ranges| && packed == CountPacked(infos)
    && PartialLayout(ranges, bits, infos, numBins) && Indexes(bitsToVars, infos, bits)
    && (forall b :: 0 <= b < numBins - 1 ==> UsedBits(infos, bits, b) > 32)
    && (numBins > 0 && packed != |ranges| ==> UsedBits(infos, bits, numBins - 1) > 32)
    && LargestFirst(infos, bits) && AllFull(infos, bits, numBins)
  }

  lemma {:induction false} NothingYet(ranges: seq<Word>, bits: seq<nat>, infos: seq<VariableInfo>, bitsToVars: seq<seq<nat>>)
    requires BitSizes(ranges, bits) && infos == seq(|ranges|, _ => UNPACKED) && Indexes(bitsToVars, infos, bits)
    ensures PackedSoFar(ranges, bits, infos, 0, bitsToVars, 0)
  {
    hide PartialLayout, Indexes, CountPacked, UsedBits, IsFull;
    CountNone(infos);
    NothingPacked(ranges, bits, infos);
  }

  lemma {:induction false} AllPacked(ranges: seq<Word>, bits: seq<nat>, infos: seq<VariableInfo>, numBins: nat, bitsToVars: seq<seq<nat>>)
    requires PackedSoFar(ranges, bits, infos, numBins, bitsToVars, |ranges|)
    ensures IsLayout(ranges, bits, infos, numBins)
    ensures LargestFirst(infos, bits) && AllFull(infos, bits, numBins)
    ensures forall b :: 0 <= b < numBins - 1 ==> UsedBits(infos, bits, b) > 32
    ensures 33 * (numBins - 1) <= TotalBits(bits)
  {
    hide BitSizes, PartialLayout, Indexes, CountPacked, UsedBits, IsLayout, TotalBits, LargestFirst, AllFull;
    Completed(ranges, bits, infos, numBins);
  }

  lemma {:induction false} Completed(ranges: seq<Word>, bits: seq<nat>, infos: seq<VariableInfo>, numBins: nat)
    requires PartialLayout(ranges, bits, infos, numBins) && CountPacked(infos) == |infos|
    requires forall b :: 0 <= b < numBins - 1 ==> UsedBits(infos, bits, b) > 32
    ensures IsLayout(ranges, bits, infos, numBins)
    ensures 33 * (numBins - 1) <= TotalBits(bits)
  {
    CountAll(infos);
    assert IsLayout(ranges, bits, infos, numBins);
    hide IsField, Apart, UsedBits, SumOfBins;
    if numBins > 0 {
      FewBins(infos, bits, numBins, numBins - 1);
      BinsHoldAll(infos, bits, numBins);
    }
  }

  /** The sizes as a function of the ranges. */
  function BitLength(x: nat): nat {
    if x == 0 then 0 else 1 + BitLength(x / 2)
  }

  ghost function Sizes(ranges: seq<Word>): (bits: seq<nat>)
    ensures |bits| == |ranges|
  {
    seq(|ranges|, v requires 0 <= v < |ranges| => if ranges[v] == MAX || ranges[v] == 0 then WIDTH else BitLength(ranges[v] - 1))
  }

  lemma {:induction false} BitLengthBounds(x: nat)
    ensures x < Pow2(BitLength(x)) && (x > 0 ==> BitLength(x) > 0 && Pow2(BitLength(x) - 1) <= x)
  {
    if x > 0 {
      BitLengthBounds(x / 2);
    }
  }

  lemma {:induction false} SizeFits(range: Word)
    requires InRange(range) && range != MAX
    ensures IsBitSize(range, BitLength(range - 1)) && 1 <= BitLength(range - 1) <= WIDTH
  {
    BitLengthBounds(range - 1);
    if BitLength(range - 1) > 32 {
      Pow2Mono(32, BitLength(range - 1) - 1);
    }
  }

  lemma {:induction false} SizesFit(ranges: seq<Word>)
    requires forall v :: 0 <= v < |ranges| ==> InRange(ranges[v])
    ensures BitSizes(ranges, Sizes(ranges))
  {
    hide Pow2, BitLength;
    forall v | 0 <= v < |ranges| ensures IsBitSize(ranges[v], Sizes(ranges)[v]) && 1 <= Sizes(ranges)[v] <= WIDTH {
      if ranges[v] != MAX {
        SizeFits(ranges[v]);
      }
    }
  }

  lemma {:induction false} OpenBin(ranges: seq<Word>, bits: seq<nat>, infos: seq<VariableInfo>, numBins: nat)
    requires PartialLayout(ranges, bits, infos, numBins)
    ensures PartialLayout(ranges, bits, infos, numBins + 1)
    ensures EndsBy(infos, bits, numBins, 0) && UsedBits(infos, bits, numBins) == 0
  {
    hide IsField, Apart;
    UsedNone(infos, bits, numBins);
  }

  /** The list that is taken from names an unpacked variable of that size. */
  lemma {:induction false} NextVar(ranges: seq<Word>, bits: seq<nat>, lists: seq<seq<nat>>, infos: seq<VariableInfo>, size: nat)
    requires BitSizes(ranges, bits) && Indexes(lists, infos, bits) && |infos| == |bits| && 1 <= size <= WIDTH && lists[size] != []
    ensures var v := lists[size][|lists[size]| - 1];
      v < |ranges| && infos[v].binIndex == -1 && bits[v] == size && InRange(ranges[v]) && IsBitSize(ranges[v], size)
  {
    assert lists[size][|lists[size]| - 1] in lists[size];
  }

  /** The first variable of a bin is a largest one, so later ones need no more bits than are used. */
  lemma {:induction false} StillAtMost(bits: seq<nat>, lists: seq<seq<nat>>, infos: seq<VariableInfo>, v: nat, info: VariableInfo,
                                       size: nat, used: nat, already: nat)
    requires Indexes(lists, infos, bits) && size <= WIDTH - used && v < |infos| && info.binIndex != -1
    requires forall k :: size < k <= WIDTH - used ==> lists[k] == []
    requires already == 0 ==> used == 0 && forall w :: 0 <= w < |bits| ==> bits[w] <= WIDTH
    requires already > 0 ==> UnpackedAtMost(infos, bits, used)
    ensures UnpackedAtMost(infos[v := info], bits, used + size)
  {
    NoneBetween(lists, infos, bits, size, WIDTH - used);
  }

  /** What is left over when a bin is closed needs more than the room left and at most the bits used. */
  lemma {:induction false} BinIsFull(ranges: seq<Word>, bits: seq<nat>, lists: seq<seq<nat>>, infos: seq<VariableInfo>, used: nat,
                                     packed: nat)
    requires BitSizes(ranges, bits) && Indexes(lists, infos, bits) && used <= WIDTH
    requires forall k :: 0 < k <= WIDTH - used ==> lists[k] == []
    requires packed == 0 ==> used == 0 && CountPacked(infos) < |infos|
    requires packed > 0 ==> UnpackedAtMost(infos, bits, used)
    ensures packed > 0 && (CountPacked(infos) < |infos| ==> used > 32)
    ensures forall w :: 0 <= w < |infos| && infos[w].binIndex == -1 ==> bits[w] > WIDTH - used
  {
    CountAll(infos);
    NoneBetween(lists, infos, bits, 0, WIDTH - used);
    if CountPacked(infos) < |infos| {
      var v :| 0 <= v < |infos| && infos[v].binIndex == -1;
      assert 1 <= bits[v] <= WIDTH;
    }
  }

  lemma {:induction false} OneMoreUsed(infos: seq<VariableInfo>, bits: seq<nat>, bin: nat, v: nat, info: VariableInfo)
    requires |infos| == |bits| && v < |infos| && infos[v].binIndex == -1 && info.binIndex == bin
    ensures var infos' := infos[v := info];
      && CountPacked(infos') == CountPacked(infos) + 1
      && UsedBits(infos', bits, bin) == UsedBits(infos, bits, bin) + bits[v]
      && forall b :: 0 <= b < bin ==> UsedBits(infos', bits, b) == UsedBits(infos, bits, b)
  {
    hide UsedBits, CountPacked;
    var infos' := infos[v := info];
    CountUpdate(infos, v, info);
    UsedBitsUpdate(infos, bits, v, info, bin);
    forall b | 0 <= b < bin ensures UsedBits(infos', bits, b) == UsedBits(infos, bits, b) {
      UsedBitsUpdate(infos, bits, v, info, b);
    }
  }

  /** What packing one variable into the open bin keeps. */
  lemma {:induction false} TakeOne(ranges: seq<Word>, bits: seq<nat>, lists: seq<seq<nat>>, infos: seq<VariableInfo>,
                                   lists': seq<seq<nat>>, bin: nat, size: nat, used: nat, already: nat, v: nat, info: VariableInfo)
    requires BitSizes(ranges, bits) && PartialLayout(ranges, bits, infos, bin + 1) && Indexes(lists, infos, bits) && |infos| == |bits|
    requires LargestFirst(infos, bits) && AllFull(infos, bits, bin) && EndsBy(infos, bits, bin, used)
    requires 1 <= size <= WIDTH - used && lists[size] != [] && forall k :: size < k <= WIDTH - used ==> lists[k] == []
    requires v == lists[size][|lists[size]| - 1] && v < |infos| == |ranges| && infos[v].binIndex == -1 && bits[v] == size
    requires lists' == lists[size := lists[size][..|lists[size]| - 1]]
    requires IsField(info, size) && info.range == ranges[v] && info.binIndex == bin && info.shift == used
    requires already == 0 ==> used == 0
    requires already > 0 ==> UnpackedAtMost(infos, bits, used)
    ensures var infos' := infos[v := info];
      && PartialLayout(ranges, bits, infos', bin + 1) && Indexes(lists', infos', bits)
      && LargestFirst(infos', bits) && AllFull(infos', bits, bin)
      && EndsBy(infos', bits, bin, used + size) && UnpackedAtMost(infos', bits, used + size)
      && CountPacked(infos') == CountPacked(infos) + 1
      && UsedBits(infos', bits, bin) == UsedBits(infos, bits, bin) + size
      && forall b :: 0 <= b < bin ==> UsedBits(infos', bits, b) == UsedBits(infos, bits, b)
  {
    assert forall w :: 0 <= w < |bits| ==> bits[w] <= WIDTH;
    hide *;
    TakeLast(lists, infos, bits, size, v, info, lists');
    PlaceNext(ranges, bits, infos, bin + 1, used, v, info);
    OthersBefore(ranges, bits, infos, bin + 1);
    TakeLargest(lists, infos, bits, size, used, v, info);
    StaysFull(infos, bits, bin, v, info);
    OneMoreUsed(infos, bits, bin, v, info);
    StillAtMost(bits, lists, infos, v, info, size, used, already);
  }

  lemma {:induction false} OthersBefore(ranges: seq<Word>, bits: seq<nat>, infos: seq<VariableInfo>, numBins: nat)
    requires PartialLayout(ranges, bits, infos, numBins) && numBins > 0
    ensures forall w :: 0 <= w < |infos| ==> infos[w].binIndex <= numBins - 1
  {
    hide IsField, Apart;
  }

  lemma {:induction false} CloseBin(ranges: seq<Word>, bits: seq<nat>, infos: seq<VariableInfo>, bin: nat)
    requires PartialLayout(ranges, bits, infos, bin + 1) && |infos| == |bits| && AllFull(infos, bits, bin)
    requires EndsBy(infos, bits, bin, UsedBits(infos, bits, bin))
    requires forall w :: 0 <= w < |infos| && infos[w].binIndex == -1 ==> bits[w] > WIDTH - UsedBits(infos, bits, bin)
    ensures AllFull(infos, bits, bin + 1)
  {
    OthersBefore(ranges, bits, infos, bin + 1);
    hide PartialLayout, UsedBits;
    assert IsFull(infos, bits, bin);
    OneMoreFull(infos, bits, bin);
  }

  // ---------- Whole buffers ----------

  function Values(infos: seq<VariableInfo>, buffer: seq<Word>): seq<Word>
    requires forall v :: 0 <= v < |infos| ==> 0 <= infos[v].binIndex < |buffer|
  {
    seq(|infos|, v requires 0 <= v < |infos| => GetField(buffer[infos[v].binIndex], infos[v]))
  }

  ghost predicate InField(info: VariableInfo, bits: nat, bin: int, i: nat) {
    info.binIndex == bin && info.shift <= i < info.shift + bits
  }

  /** Bits that belong to no field are zero. */
  ghost predicate Padded(infos: seq<VariableInfo>, bits: seq<nat>, buffer: seq<Word>)
    requires |infos| == |bits|
  {
    forall b, i :: 0 <= b < |buffer| && 0 <= i < WIDTH && Bit(buffer[b], i) ==>
      exists v :: 0 <= v < |infos| && InField(infos[v], bits[v], b, i)
  }

  lemma {:induction false} SetInBuffer(ranges: seq<Word>, bits: seq<nat>, infos: seq<VariableInfo>, numBins: nat, buffer: seq<Word>,
                                       v: nat, value: Word)
    requires IsLayout(ranges, bits, infos, numBins) && |buffer| == numBins && v < |infos| && value < ranges[v]
    ensures var b := infos[v].binIndex;
      Values(infos, buffer[b := SetField(buffer[b], infos[v], value)]) == Values(infos, buffer)[v := value]
  {
    var b := infos[v].binIndex;
    var buffer' := buffer[b := SetField(buffer[b], infos[v], value)];
    assert Placed(infos[v], ranges[v], bits[v], numBins);
    hide IsField, Pow2, Bit, GetField, SetField;
    forall w | 0 <= w < |infos| ensures Values(infos, buffer')[w] == Values(infos, buffer)[v := value][w] {
      assert Placed(infos[w], ranges[w], bits[w], numBins);
      if w == v {
        GetAfterSet(buffer[b], infos[v], bits[v], value);
      } else if infos[w].binIndex == b {
        assert Apart(infos[w], bits[w], infos[v], bits[v]);
        GetAfterOtherSet(buffer[b], infos[w], bits[w], infos[v], bits[v], value);
      }
    }
  }

  lemma {:induction false} SetKeepsPadding(ranges: seq<Word>, bits: seq<nat>, infos: seq<VariableInfo>, numBins: nat, buffer: seq<Word>,
                                           v: nat, value: Word)
    requires IsLayout(ranges, bits, infos, numBins) && |buffer| == numBins && v < |infos| && value < ranges[v]
    requires Padded(infos, bits, buffer)
    ensures var b := infos[v].binIndex; Padded(infos, bits, buffer[b := SetField(buffer[b], infos[v], value)])
  {
    var b := infos[v].binIndex;
    var buffer' := buffer[b := SetField(buffer[b], infos[v], value)];
    assert Placed(infos[v], ranges[v], bits[v], numBins);
    hide IsField, Pow2, Bit, SetField;
    forall c, i | 0 <= c < |buffer'| && 0 <= i < WIDTH && Bit(buffer'[c], i)
      ensures exists w :: 0 <= w < |infos| && InField(infos[w], bits[w], c, i)
    {
      if c == b {
        SetBits(buffer[b], infos[v], bits[v], value, i);
        if infos[v].shift <= i < infos[v].shift + bits[v] {
          assert InField(infos[v], bits[v], c, i);
        } else {
          assert Bit(buffer[b], i);
        }
      } else {
        assert Bit(buffer[c], i);
      }
    }
  }

  /** With zero padding, packed equality is value equality. */
  lemma {:induction false} SameValuesSameBuffer(ranges: seq<Word>, bits: seq<nat>, infos: seq<VariableInfo>, numBins: nat,
                                                x: seq<Word>, y: seq<Word>)
    requires IsLayout(ranges, bits, infos, numBins) && |x| == |y| == numBins
    requires Padded(infos, bits, x) && Padded(infos, bits, y)
    requires Values(infos, x) == Values(infos, y)
    ensures x == y
  {
    forall b | 0 <= b < numBins ensures x[b] == y[b] {
      forall i | 0 <= i < WIDTH ensures Bit(x[b], i) <==> Bit(y[b], i) {
        SameBit(ranges, bits, infos, numBins, x, y, b, i);
      }
      SameBits(x[b], y[b], WIDTH);
    }
  }

  lemma {:induction false} SameBit(ranges: seq<Word>, bits: seq<nat>, infos: seq<VariableInfo>, numBins: nat,
                                   x: seq<Word>, y: seq<Word>, b: nat, i: nat)
    requires IsLayout(ranges, bits, infos, numBins) && |x| == |y| == numBins && b < numBins && i < WIDTH
    requires Padded(infos, bits, x) && Padded(infos, bits, y)
    requires Values(infos, x) == Values(infos, y)
    ensures Bit(x[b], i) <==> Bit(y[b], i)
  {
    hide IsField, Pow2, Bit, GetField;
    if v :| 0 <= v < |infos| && InField(infos[v], bits[v], b, i) {
      assert Placed(infos[v], ranges[v], bits[v], numBins);
      assert Values(infos, x)[v] == Values(infos, y)[v];
      GetBits(x[b], infos[v], bits[v], i - infos[v].shift);
      GetBits(y[b], infos[v], bits[v], i - infos[v].shift);
    }
  }

  /** A buffer filled with zeros. */
  lemma {:induction false} ZeroBuffer(ranges: seq<Word>, bits: seq<nat>, infos: seq<VariableInfo>, numBins: nat)
    requires IsLayout(ranges, bits, infos, numBins)
    ensures Padded(infos, bits, seq(numBins, _ => 0))
    ensures Values(infos, seq(numBins, _ => 0)) == seq(|infos|, _ => 0)
  {
    hide IsField, Pow2, Bit, GetField;
    forall i | 0 <= i < WIDTH ensures !Bit(0, i) {
      BitZero(i);
    }
    forall v | 0 <= v < |infos| ensures GetField(0, infos[v]) == 0 {
      ZeroField(infos[v], bits[v]);
    }
  }

  lemma {:induction false} ZeroField(info: VariableInfo, bits: nat)
    ensures GetField(0, info) == 0
  {
    ShiftZero(info.shift);
  }

  lemma {:induction false} ShiftZero(n: nat)
    ensures ShiftRight(0, n) == 0
    decreases n
  {
    if n > 0 {
      ShiftZero(n - 1);
    }
  }

  class IntPacker {
    var varInfos: seq<VariableInfo>
    var numBins: nat

    ghost predicate Valid(ranges: seq<Word>)
      reads this
    {
      IsLayout(ranges, Sizes(ranges), varInfos, numBins)
    }

    /** The largest variable that fits goes first and a bin is closed when none fits, so all bins but the last are more than half full. */
    constructor (ranges: seq<Word>)
      requires forall v :: 0 <= v < |ranges| ==> InRange(ranges[v])
      ensures Valid(ranges)
      ensures LargestFirst(varInfos, Sizes(ranges)) && AllFull(varInfos, Sizes(ranges), numBins)
      ensures forall b :: 0 <= b < numBins - 1 ==> UsedBits(varInfos, Sizes(ranges), b) > 32
      ensures 33 * (numBins - 1) <= TotalBits(Sizes(ranges))
    {
      varInfos, numBins := [], 0;
      new;
      PackBins(ranges);
    }

    method PackBins(ranges: seq<Word>)
      requires forall v :: 0 <= v < |ranges| ==> InRange(ranges[v])
      requires varInfos == [] && numBins == 0
      modifies this
      ensures Valid(ranges)
      ensures LargestFirst(varInfos, Sizes(ranges)) && AllFull(varInfos, Sizes(ranges), numBins)
      ensures forall b :: 0 <= b < numBins - 1 ==> UsedBits(varInfos, Sizes(ranges), b) > 32
      ensures 33 * (numBins - 1) <= TotalBits(Sizes(ranges))
    {
      SizesFit(ranges);
      hide *;
      ghost var bits := Sizes(ranges);
      var numVars := |ranges|;
      varInfos := seq(numVars, _ => UNPACKED);
      var bitsToVars := IndexVars(ranges, bits);
      NothingYet(ranges, bits, varInfos, bitsToVars[..]);
      var packedVars := 0;
      while packedVars != numVars
        invariant bits == Sizes(ranges) && packedVars <= numVars
        invariant PackedSoFar(ranges, bits, varInfos, numBins, bitsToVars[..], packedVars)
        decreases numVars - packedVars
      {
        var more := PackMore(ranges, bitsToVars, bits, packedVars);
        packedVars := packedVars + more;
      }
      AllPacked(ranges, bits, varInfos, numBins, bitsToVars[..]);
    }

    method PackMore(ranges: seq<Word>, bitsToVars: array<seq<nat>>, ghost bits: seq<nat>, ghost packedVars: nat) returns (more: nat)
      requires bitsToVars.Length == WIDTH + 1 && packedVars < |ranges|
      requires PackedSoFar(ranges, bits, varInfos, numBins, bitsToVars[..], packedVars)
      modifies this, bitsToVars
      ensures more > 0 && packedVars + more <= |ranges|
      ensures PackedSoFar(ranges, bits, varInfos, numBins, bitsToVars[..], packedVars + more)
    {
      hide Indexes, CountPacked, UsedBits, Placed, Apart, LargestFirst, AllFull;
      CountAll(varInfos);
      more := PackOneBin(ranges, bitsToVars, bits);
      CountAll(varInfos);
    }

    /** Sorts the variables by size; low indices end up last, to be taken first. */
    method IndexVars(ranges: seq<Word>, ghost bits: seq<nat>) returns (bitsToVars: array<seq<nat>>)
      requires BitSizes(ranges, bits) && varInfos == seq(|ranges|, _ => UNPACKED)
      ensures fresh(bitsToVars) && bitsToVars.Length == WIDTH + 1 && Indexes(bitsToVars[..], varInfos, bits)
    {
      hide Pow2, IsBitSize, IndexesFrom;
      bitsToVars := new seq<nat>[WIDTH + 1](_ => []);
      var v: nat := |ranges|;
      IndexNothing(bits, bitsToVars[..]);
      while v > 0
        invariant v <= |ranges| && IndexesFrom(bitsToVars[..], bits, v)
      {
        v := v - 1;
        var size := GetBitSizeForRange(ranges[v]);
        BitSizeUnique(ranges[v], size, bits[v]);
        IndexNext(bitsToVars[..], bits, v, size);
        bitsToVars[size] := bitsToVars[size] + [v];
      }
      IndexAll(bitsToVars[..], varInfos, bits);
    }

    /** Fills a new bin, the largest variable that still fits first, until none fits. */
    method PackOneBin(ranges: seq<Word>, bitsToVars: array<seq<nat>>, ghost bits: seq<nat>) returns (numVarsInBin: nat)
      requires bitsToVars.Length == WIDTH + 1 && BitSizes(ranges, bits)
      requires PartialLayout(ranges, bits, varInfos, numBins) && Indexes(bitsToVars[..], varInfos, bits)
      requires CountPacked(varInfos) < |varInfos|
      requires LargestFirst(varInfos, bits) && AllFull(varInfos, bits, numBins)
      modifies this, bitsToVars
      ensures numBins == old(numBins) + 1
      ensures PartialLayout(ranges, bits, varInfos, numBins) && Indexes(bitsToVars[..], varInfos, bits)
      ensures numVarsInBin > 0 && CountPacked(varInfos) == old(CountPacked(varInfos)) + numVarsInBin
      ensures LargestFirst(varInfos, bits) && AllFull(varInfos, bits, numBins)
      ensures forall b :: 0 <= b < old(numBins) ==> UsedBits(varInfos, bits, b) == old(UsedBits(varInfos, bits, b))
      ensures CountPacked(varInfos) < |varInfos| ==> UsedBits(varInfos, bits, numBins - 1) > 32
    {
      hide Pow2, IsField, Apart;
      numBins := numBins + 1;
      var binIndex := numBins - 1;
      var usedBits := 0;
      numVarsInBin := 0;
      OpenBin(ranges, bits, varInfos, binIndex);
      hide PartialLayout, Indexes, EndsBy, UnpackedAtMost, CountPacked, LargestFirst, AllFull;
      while true
        invariant numBins == old(numBins) + 1 == binIndex + 1 && usedBits <= WIDTH
        invariant PartialLayout(ranges, bits, varInfos, numBins) && Indexes(bitsToVars[..], varInfos, bits)
        invariant EndsBy(varInfos, bits, binIndex, usedBits) && |varInfos| == |bits| && usedBits == UsedBits(varInfos, bits, binIndex)
        invariant forall b :: 0 <= b < binIndex ==> UsedBits(varInfos, bits, b) == old(UsedBits(varInfos, bits, b))
        invariant LargestFirst(varInfos, bits) && AllFull(varInfos, bits, binIndex)
        invariant CountPacked(varInfos) == old(CountPacked(varInfos)) + numVarsInBin
        invariant numVarsInBin == 0 ==> usedBits == 0 && CountPacked(varInfos) < |varInfos|
        invariant numVarsInBin > 0 ==> UnpackedAtMost(varInfos, bits, usedBits)
        decreases WIDTH - usedBits
      {
        var size: nat := WIDTH - usedBits;
        while size > 0 && bitsToVars[size] == []
          invariant size <= WIDTH - usedBits
          invariant forall k :: size < k <= WIDTH - usedBits ==> bitsToVars[k] == []
        {
          size := size - 1;
        }
        if size == 0 {
          BinIsFull(ranges, bits, bitsToVars[..], varInfos, usedBits, numVarsInBin);
          CloseBin(ranges, bits, varInfos, binIndex);
          return;
        }
        ghost var lists, infos := bitsToVars[..], varInfos;
        var bestFitVars := bitsToVars[size];
        var v := bestFitVars[|bestFitVars| - 1];
        NextVar(ranges, bits, lists, infos, size);
        bitsToVars[size] := bestFitVars[..|bestFitVars| - 1];
        var info := NewVariableInfo(ranges[v], binIndex, usedBits, bits[v]);
        varInfos := varInfos[v := info];
        assert bitsToVars[..] == lists[size := lists[size][..|lists[size]| - 1]];
        TakeOne(ranges, bits, lists, infos, bitsToVars[..], binIndex, size, usedBits, numVarsInBin, v, info);
        assert forall b :: 0 <= b < binIndex ==> UsedBits(varInfos, bits, b) == UsedBits(infos, bits, b);
        usedBits := usedBits + size;
        numVarsInBin := numVarsInBin + 1;
      }
    }

    /** Reads a variable of the state that is stored from the given bin on. */
    method Get(buffer: array<Word>, start: nat, v: nat, ghost ranges: seq<Word>) returns (value: Word)
      requires Valid(ranges) && v < |ranges| && start + numBins <= buffer.Length
      ensures value == Values(varInfos, buffer[start..start + numBins])[v]
    {
      assert Placed(varInfos[v], ranges[v], Sizes(ranges)[v], numBins);
      value := GetField(buffer[start + varInfos[v].binIndex], varInfos[v]);
    }

    /** Writes one variable; the others keep their values and unused bits stay zero. */
    method Set(buffer: array<Word>, start: nat, v: nat, value: Word, ghost ranges: seq<Word>)
      requires Valid(ranges) && v < |ranges| && start + numBins <= buffer.Length && value < ranges[v]
      modifies buffer
      ensures Values(varInfos, buffer[start..start + numBins]) == Values(varInfos, old(buffer[start..start + numBins]))[v := value]
      ensures Padded(varInfos, Sizes(ranges), old(buffer[start..start + numBins])) ==>
        Padded(varInfos, Sizes(ranges), buffer[start..start + numBins])
      ensures forall k :: 0 <= k < buffer.Length && !(start <= k < start + numBins) ==> buffer[k] == old(buffer[k])
    {
      ghost var before := buffer[start..start + numBins];
      var info := varInfos[v];
      assert Placed(info, ranges[v], Sizes(ranges)[v], numBins);
      buffer[start + info.binIndex] := SetField(buffer[start + info.binIndex], info, value);
      assert buffer[start..start + numBins] == before[info.binIndex := SetField(before[info.binIndex], info, value)];
      SetInBuffer(ranges, Sizes(ranges), varInfos, numBins, before, v, value);
      if Padded(varInfos, Sizes(ranges), before) {
        SetKeepsPadding(ranges, Sizes(ranges), varInfos, numBins, before, v, value);
      }
    }
  }
}
