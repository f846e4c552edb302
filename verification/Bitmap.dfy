/** kernel/kernel.c and the ready bitmaps of kernel/sch.c: find-first-set finds the lowest non-empty list. */
module Bitmap {

  // ---------- bits of a word

  /** 1UL << p */
  function Mask(p: nat): bv32
    requires p < 32
  {
    (1 as bv32) << (p as bv32)
  }

  predicate Bit(g: bv32, p: nat)
    requires p < 32
  {
    g & Mask(p) != 0
  }

  lemma Width(p: nat)
    requires p < 32
    ensures (p as bv32) < 32 && (p as bv32) as nat == p
  {}

  lemma OrMask(g: bv32, a: bv32, b: bv32)
    requires a != 0 && b != 0 && a & b == if a == b then a else 0
    ensures (g | a) & b != 0 <==> g & b != 0 || a == b
  {}

  lemma AndNotMask(g: bv32, a: bv32, b: bv32)
    requires a != 0 && b != 0 && a & b == if a == b then a else 0
    ensures (g & !a) & b != 0 <==> g & b != 0 && a != b
  {}

  lemma ShiftPair(p: bv32, q: bv32)
    requires p < 32 && q < 32
    ensures 1 << p != 0 as bv32 && (1 << p) & (1 << q) == if p == q then 1 << p else 0 as bv32
  {}

  lemma MaskPair(p: nat, q: nat)
    requires p < 32 && q < 32
    ensures Mask(p) != 0 && Mask(p) & Mask(q) == if p == q then Mask(p) else 0
  {
    Width(p);
    Width(q);
    ShiftPair(p as bv32, q as bv32);
  }

  lemma MaskEqual(p: nat, q: nat)
    requires p < 32 && q < 32
    ensures p == q <==> Mask(p) == Mask(q)
  {
    MaskPair(p, q);
  }

  lemma SetMask(g: bv32, p: nat, q: nat)
    requires p < 32 && q < 32
    ensures (g | Mask(p)) & Mask(q) != 0 <==> g & Mask(q) != 0 || Mask(p) == Mask(q)
  {
    MaskPair(p, q);
    MaskPair(q, p);
    OrMask(g, Mask(p), Mask(q));
  }

  lemma ClearMask(g: bv32, p: nat, q: nat)
    requires p < 32 && q < 32
    ensures (g & !Mask(p)) & Mask(q) != 0 <==> g & Mask(q) != 0 && Mask(p) != Mask(q)
  {
    MaskPair(p, q);
    MaskPair(q, p);
    AndNotMask(g, Mask(p), Mask(q));
  }

  lemma SetBit(g: bv32, p: nat, q: nat)
    requires p < 32 && q < 32
    ensures Bit(g | Mask(p), q) <==> Bit(g, q) || p == q
  {
    SetMask(g, p, q);
    MaskEqual(p, q);
  }

  lemma ClearBit(g: bv32, p: nat, q: nat)
    requires p < 32 && q < 32
    ensures Bit(g & !Mask(p), q) <==> Bit(g, q) && p != q
  {
    ClearMask(g, p, q);
    MaskEqual(p, q);
  }

  // ---------- __wk_ffs

  /** A row of __lowest_bit_bitmap; the rows differ in their first column only. */
  function Row(first: bv32, column: bv32): bv32 {
    if column == 0 then first
    else if column == 2 || column == 6 || column == 10 || column == 14 then 1
    else if column == 4 || column == 12 then 2
    else if column == 8 then 3
    else 0
  }

  /** The first column of __lowest_bit_bitmap. */
  function FirstColumn(row: bv32): bv32 {
    if row == 0 then 0
    else if row == 2 || row == 6 || row == 10 || row == 14 then 5
    else if row == 4 || row == 12 then 6
    else if row == 8 then 7
    else 4
  }

  /** __lowest_bit_bitmap */
  function LowestBit(i: bv32): bv32
    requires i < 0x100
  {
    Row(FirstColumn(i >> 4), i & 0xf)
  }

  /** __wk_ffs */
  function Ffs(value: bv32): bv32 {
    if value == 0 then 0
    else if value & 0xff != 0 then LowestBit(value & 0xff) + 1
    else if value & 0xff00 != 0 then LowestBit((value & 0xff00) >> 8) + 9
    else if value & 0xff_0000 != 0 then LowestBit((value & 0xff_0000) >> 16) + 17
    else LowestBit((value & 0xff00_0000) >> 24) + 25
  }

  lemma LowestBitIs(i: bv32)
    requires 0 < i < 0x100
    ensures LowestBit(i) < 8 && i & (1 << LowestBit(i)) != 0 && i & ((1 << LowestBit(i)) - 1) == 0
  {}

  lemma FfsBits(v: bv32)
    requires v != 0
    ensures 1 <= Ffs(v) <= 32 && (v < 0x100 ==> Ffs(v) <= 8)
    ensures v & (1 << (Ffs(v) - 1)) != 0 && v & ((1 << (Ffs(v) - 1)) - 1) == 0
  {}

  lemma BitsBelow(v: bv32, k: bv32, q: bv32)
    requires q < k < 32 && v & ((1 << k) - 1) == 0
    ensures v & (1 << q) == 0
  {}

  /** The bit that __wk_ffs finds, counted from 0. */
  function First(v: bv32): (k: nat)
    requires v != 0
    ensures k < 32
  {
    FfsBits(v);
    Back(Ffs(v) - 1);
    (Ffs(v) - 1) as nat
  }

  /** __wk_ffs finds the lowest set bit. */
  lemma FirstIsLowest(v: bv32)
    requires v != 0
    ensures First(v) < 32 && (v < 0x100 ==> First(v) < 8) && Bit(v, First(v))
    ensures forall q :: 0 <= q < First(v) ==> !Bit(v, q)
  {
    var k := FirstAsWord(v);
    forall q | 0 <= q < First(v) ensures !Bit(v, q) {
      BitBelow(v, k, q);
    }
  }

  lemma FirstAsWord(v: bv32) returns (k: bv32)
    requires v != 0
    ensures k < 32 && First(v) == k as nat && First(v) < 32 && (v < 0x100 ==> First(v) < 8)
    ensures Bit(v, First(v)) && v & ((1 << k) - 1) == 0
  {
    FfsBits(v);
    k := Ffs(v) - 1;
    Back(k);
    BitBack(v, k);
  }

  lemma BitBack(v: bv32, k: bv32)
    requires k < 32 && v & (1 << k) != 0
    ensures (k as nat) < 32 && Bit(v, k as nat)
  {
    Back(k);
  }

  lemma Back(k: bv32)
    requires k < 32
    ensures (k as nat) as bv32 == k && (k as nat) < 32 && (k < 8 <==> (k as nat) < 8)
  {}

  lemma BitBelow(v: bv32, k: bv32, q: nat)
    requires k < 32 && q < k as nat && v & ((1 << k) - 1) == 0
    ensures !Bit(v, q)
  {
    Width(q);
    BitsBelow(v, k, q as bv32);
  }

  // ---------- the ready bitmaps

  /** The linear scan for the first list that is not empty. */
  function Lowest(lists: seq<seq<nat>>): nat {
    if lists == [] || lists[0] != [] then 0 else 1 + Lowest(lists[1..])
  }

  lemma {:induction false} LowestIs(lists: seq<seq<nat>>, k: nat)
    requires NonEmpty(lists, k) && forall q :: 0 <= q < k ==> !NonEmpty(lists, q)
    ensures Lowest(lists) == k
  {
    if k > 0 {
      assert !NonEmpty(lists, 0) && NonEmpty(lists[1..], k - 1);
      forall q | 0 <= q < k - 1 ensures !NonEmpty(lists[1..], q) {
        assert !NonEmpty(lists, q + 1);
      }
      LowestIs(lists[1..], k - 1);
    }
  }

  predicate NonEmpty(lists: seq<seq<nat>>, p: nat) {
    p < |lists| && lists[p] != []
  }

  /** The flat bitmap, for up to 32 priorities: a bit is set if and only if its list is not empty. */
  ghost predicate Marks(group: bv32, lists: seq<seq<nat>>) {
    |lists| <= 32 && forall p {:trigger Bit(group, p)} :: 0 <= p < 32 ==> (Bit(group, p) <==> NonEmpty(lists, p))
  }

  lemma MarksAdd(group: bv32, lists: seq<seq<nat>>, p: nat, l: seq<nat>)
    requires Marks(group, lists) && p < |lists| && l != []
    ensures Marks(group | Mask(p), lists[p := l])
  {
    var g, ls := group | Mask(p), lists[p := l];
    forall q | 0 <= q < 32 ensures Bit(g, q) <==> NonEmpty(ls, q) {
      SetBit(group, p, q);
      assert Bit(group, q) <==> NonEmpty(lists, q);
    }
  }

  lemma MarksEmpty(group: bv32, lists: seq<seq<nat>>, p: nat)
    requires Marks(group, lists) && p < |lists|
    ensures Marks(group & !Mask(p), lists[p := []])
  {
    var g, ls := group & !Mask(p), lists[p := []];
    forall q | 0 <= q < 32 ensures Bit(g, q) <==> NonEmpty(ls, q) {
      ClearBit(group, p, q);
      assert Bit(group, q) <==> NonEmpty(lists, q);
    }
  }

  lemma MarksKeep(group: bv32, lists: seq<seq<nat>>, p: nat, l: seq<nat>)
    requires Marks(group, lists) && p < |lists| && lists[p] != [] && l != []
    ensures Marks(group, lists[p := l])
  {
    forall q | 0 <= q < 32 ensures Bit(group, q) <==> NonEmpty(lists[p := l], q) {
      assert Bit(group, q) <==> NonEmpty(lists, q);
    }
  }

  /** __wk_ffs(ready_task_priority_group) - 1 is what a linear scan of the lists finds. */
  lemma MarksLowest(group: bv32, lists: seq<seq<nat>>)
    requires Marks(group, lists) && exists p :: 0 <= p < |lists| && NonEmpty(lists, p)
    ensures group != 0 && First(group) == Lowest(lists) < |lists| && lists[Lowest(lists)] != []
  {
    var p :| 0 <= p < |lists| && NonEmpty(lists, p);
    assert Bit(group, p);
    SomeBit(group, p);
    FirstIsLowest(group);
    assert NonEmpty(lists, First(group));
    forall q | 0 <= q < First(group) ensures !NonEmpty(lists, q) {
      assert !Bit(group, q);
    }
    LowestIs(lists, First(group));
  }

  lemma SomeBit(g: bv32, p: nat)
    requires p < 32 && Bit(g, p)
    ensures g != 0
  {}
}
