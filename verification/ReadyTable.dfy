/**
 The two forms of the ready lists of kernel/sch.c: one bitmap for up to 32 priorities, or a table of bytes below it.
 */
module ReadyTable {
  import opened Queues
  import opened Bitmap

  // ---------- up to 256 priorities

  datatype TwoLevel = TwoLevel(lists: seq<seq<nat>>, group: bv32, table: seq<bv32>)

  /** Bit o of the group tells whether byte o of the table is set; bit b of that byte is for priority 8 * o + b. */
  ghost predicate Marked(t: TwoLevel) {
    |t.lists| <= 256 && BytesMarked(t.group, t.table) && ListsMarked(t.table, t.lists)
  }

  ghost predicate BytesMarked(group: bv32, table: seq<bv32>) {
    |table| == 32 && forall o :: 0 <= o < 32 ==> ByteMarked(group, table, o)
  }

  ghost predicate ListsMarked(table: seq<bv32>, lists: seq<seq<nat>>) {
    |table| == 32 && forall o, b :: 0 <= o < 32 && 0 <= b < 8 ==> ListMarked(table, lists, o, b)
  }

  ghost predicate ByteMarked(group: bv32, table: seq<bv32>, o: nat)
    requires o < |table| && o < 32
  {
    table[o] < 0x100 && (Bit(group, o) <==> table[o] != 0)
  }

  ghost predicate ListMarked(table: seq<bv32>, lists: seq<seq<nat>>, o: nat, b: nat)
    requires o < |table| && b < 8
  {
    Bit(table[o], b) <==> NonEmpty(lists, 8 * o + b)
  }

  /** task->offset and the bit of task->prio_mask */
  function Offset(prio: nat): (o: nat)
    ensures 8 * o <= prio < 8 * o + 8
  {
    prio / 8
  }

  function BitOf(prio: nat): (b: nat)
    ensures b < 8 && prio == 8 * Offset(prio) + b
  {
    prio % 8
  }

  /** add_task_to_ready_list */
  function Add(t: TwoLevel, prio: nat, id: nat): TwoLevel
    requires prio < |t.lists| <= 256 && |t.table| == 32
  {
    TwoLevel(t.lists[prio := t.lists[prio] + [id]], t.group | Mask(Offset(prio)),
             t.table[Offset(prio) := t.table[Offset(prio)] | Mask(BitOf(prio))])
  }

  /** del_task_to_ready_list */
  function Del(t: TwoLevel, prio: nat, id: nat): TwoLevel
    requires prio < |t.lists| <= 256 && |t.table| == 32
  {
    var list := Without(t.lists[prio], id);
    if list == [] then Emptied(t, prio, t.table[Offset(prio)] & !Mask(BitOf(prio)))
    else t.(lists := t.lists[prio := list])
  }

  /** Once the list is empty, its bit goes, and with the last bit of a byte that of the group. */
  function Emptied(t: TwoLevel, prio: nat, byte: bv32): TwoLevel
    requires prio < |t.lists| <= 256 && |t.table| == 32
  {
    TwoLevel(t.lists[prio := []], if byte == 0 then t.group & !Mask(Offset(prio)) else t.group,
             t.table[Offset(prio) := byte])
  }

  /** The search in sch_start and switch_task. */
  function Highest(t: TwoLevel): nat
    requires t.group != 0 && |t.table| == 32 && t.table[First(t.group)] != 0
  {
    8 * First(t.group) + First(t.table[First(t.group)])
  }

  // ---------- a byte of the table

  lemma ByteOps(t: bv32, b: nat)
    requires t < 0x100 && b < 8
    ensures 0 < t | Mask(b) < 0x100 && t & !Mask(b) < 0x100
  {
    Width8(b);
    ShiftOps(t, b as bv32);
  }

  lemma Width8(b: nat)
    requires b < 8
    ensures (b as bv32) < 8
  {}

  lemma ShiftOps(t: bv32, b: bv32)
    requires t < 0x100 && b < 8
    ensures 0 < t | (1 << b) < 0x100 && t & !(1 << b) < 0x100
  {}

  // ---------- the group

  lemma GroupSet(group: bv32, table: seq<bv32>, k: nat, byte: bv32)
    requires BytesMarked(group, table) && k < 32 && 0 < byte < 0x100
    ensures BytesMarked(group | Mask(k), table[k := byte])
  {
    var g, t := group | Mask(k), table[k := byte];
    forall o | 0 <= o < 32 ensures ByteMarked(g, t, o) {
      assert ByteMarked(group, table, o);
      SetBit(group, k, o);
    }
  }

  lemma GroupClear(group: bv32, table: seq<bv32>, k: nat)
    requires BytesMarked(group, table) && k < 32
    ensures BytesMarked(group & !Mask(k), table[k := 0])
  {
    var g, t := group & !Mask(k), table[k := 0];
    forall o | 0 <= o < 32 ensures ByteMarked(g, t, o) {
      assert ByteMarked(group, table, o);
      ClearBit(group, k, o);
    }
  }

  lemma GroupKeep(group: bv32, table: seq<bv32>, k: nat, byte: bv32)
    requires BytesMarked(group, table) && k < 32 && 0 < byte < 0x100 && table[k] != 0
    ensures BytesMarked(group, table[k := byte])
  {
    var t := table[k := byte];
    forall o | 0 <= o < 32 ensures ByteMarked(group, t, o) {
      assert ByteMarked(group, table, o);
    }
  }

  // ---------- the lists

  /** The bits of byte are those of was, but for bit c. */
  ghost predicate OnlyBit(was: bv32, byte: bv32, c: nat, value: bool) {
    forall b {:trigger Bit(byte, b)} :: 0 <= b < 8 ==> (Bit(byte, b) <==> if b == c then value else Bit(was, b))
  }

  lemma SetOnly(was: bv32, c: nat)
    requires c < 8
    ensures OnlyBit(was, was | Mask(c), c, true)
  {
    var byte := was | Mask(c);
    forall b | 0 <= b < 8 ensures Bit(byte, b) <==> if b == c then true else Bit(was, b) {
      SetBit(was, c, b);
    }
  }

  lemma ClearOnly(was: bv32, c: nat)
    requires c < 8
    ensures OnlyBit(was, was & !Mask(c), c, false)
  {
    var byte := was & !Mask(c);
    forall b | 0 <= b < 8 ensures Bit(byte, b) <==> if b == c then false else Bit(was, b) {
      ClearBit(was, c, b);
    }
  }

  lemma ListChange(table: seq<bv32>, lists: seq<seq<nat>>, p: nat, byte: bv32, list: seq<nat>)
    requires ListsMarked(table, lists) && p < |lists| && p < 256
    requires OnlyBit(table[Offset(p)], byte, BitOf(p), list != [])
    ensures ListsMarked(table[Offset(p) := byte], lists[p := list])
  {
    var t, l := table[Offset(p) := byte], lists[p := list];
    forall o, b | 0 <= o < 32 && 0 <= b < 8 ensures ListMarked(t, l, o, b) {
      assert ListMarked(table, lists, o, b);
    }
  }

  lemma ListKeep(table: seq<bv32>, lists: seq<seq<nat>>, p: nat, list: seq<nat>)
    requires ListsMarked(table, lists) && p < |lists| && lists[p] != [] && list != []
    ensures ListsMarked(table, lists[p := list])
  {
    var l := lists[p := list];
    forall o, b | 0 <= o < 32 && 0 <= b < 8 ensures ListMarked(table, l, o, b) {
      assert ListMarked(table, lists, o, b);
    }
  }

  // ---------- the operations

  lemma AddMarked(t: TwoLevel, prio: nat, id: nat)
    requires Marked(t) && prio < |t.lists|
    ensures Marked(Add(t, prio, id))
  {
    AddMarksBytes(t, prio, id);
    AddMarksLists(t, prio, id);
  }

  lemma AddMarksBytes(t: TwoLevel, prio: nat, id: nat)
    requires Marked(t) && prio < |t.lists|
    ensures BytesMarked(Add(t, prio, id).group, Add(t, prio, id).table)
  {
    var o := Offset(prio);
    AddGroup(t.group, t.table, o, BitOf(prio), t.table[o] | Mask(BitOf(prio)), t.group | Mask(o));
  }

  lemma AddMarksLists(t: TwoLevel, prio: nat, id: nat)
    requires Marked(t) && prio < |t.lists|
    ensures ListsMarked(Add(t, prio, id).table, Add(t, prio, id).lists)
  {
    AddLists(t.table, t.lists, prio, t.table[Offset(prio)] | Mask(BitOf(prio)), t.lists[prio] + [id]);
  }

  lemma AddGroup(group: bv32, table: seq<bv32>, o: nat, b: nat, byte: bv32, g: bv32)
    requires BytesMarked(group, table) && o < 32 && b < 8 && byte == table[o] | Mask(b) && g == group | Mask(o)
    ensures BytesMarked(g, table[o := byte])
  {
    assert ByteMarked(group, table, o);
    ByteOps(table[o], b);
    GroupSet(group, table, o, byte);
  }

  lemma AddLists(table: seq<bv32>, lists: seq<seq<nat>>, p: nat, byte: bv32, list: seq<nat>)
    requires ListsMarked(table, lists) && p < |lists| && p < 256 && list != []
    requires byte == table[Offset(p)] | Mask(BitOf(p))
    ensures ListsMarked(table[Offset(p) := byte], lists[p := list])
  {
    SetOnly(table[Offset(p)], BitOf(p));
    ListChange(table, lists, p, byte, list);
  }

  lemma DelMarked(t: TwoLevel, prio: nat, id: nat)
    requires Marked(t) && prio < |t.lists|
    ensures Marked(Del(t, prio, id))
  {
    var list := Without(t.lists[prio], id);
    if list == [] {
      EmptyMarked(t, prio, t.table[Offset(prio)] & !Mask(BitOf(prio)));
    } else {
      ListKeep(t.table, t.lists, prio, list);
    }
  }

  lemma EmptyMarked(t: TwoLevel, prio: nat, byte: bv32)
    requires Marked(t) && prio < |t.lists| && byte == t.table[Offset(prio)] & !Mask(BitOf(prio))
    ensures Marked(Emptied(t, prio, byte))
  {
    EmptyLists(t.table, t.lists, prio, byte);
    EmptyByte(t, prio, byte);
    EmptyGroup(t.group, t.table, Offset(prio), byte);
  }

  lemma WasMarked(t: TwoLevel, prio: nat)
    requires Marked(t) && NonEmpty(t.lists, prio)
    ensures t.table[Offset(prio)] < 0x100 && Bit(t.table[Offset(prio)], BitOf(prio))
  {
    assert ByteMarked(t.group, t.table, Offset(prio)) && ListMarked(t.table, t.lists, Offset(prio), BitOf(prio));
  }

  lemma EmptyLists(table: seq<bv32>, lists: seq<seq<nat>>, p: nat, byte: bv32)
    requires ListsMarked(table, lists) && p < |lists| && p < 256 && byte == table[Offset(p)] & !Mask(BitOf(p))
    ensures ListsMarked(table[Offset(p) := byte], lists[p := []])
  {
    ClearOnly(table[Offset(p)], BitOf(p));
    ListChange(table, lists, p, byte, []);
  }

  lemma EmptyByte(t: TwoLevel, prio: nat, byte: bv32)
    requires BytesMarked(t.group, t.table) && prio < 256 && byte == t.table[Offset(prio)] & !Mask(BitOf(prio))
    ensures byte < 0x100 && (byte != 0 ==> t.table[Offset(prio)] != 0)
  {
    assert ByteMarked(t.group, t.table, Offset(prio));
    ByteClears(t.table[Offset(prio)], BitOf(prio), byte);
  }

  lemma ByteClears(was: bv32, b: nat, byte: bv32)
    requires was < 0x100 && b < 8 && byte == was & !Mask(b)
    ensures byte < 0x100 && (byte != 0 ==> was != 0)
  {
    ByteOps(was, b);
    NothingLeft(was, !Mask(b));
  }

  lemma NothingLeft(was: bv32, m: bv32)
    ensures was == 0 ==> was & m == 0
  {}

  lemma EmptyGroup(group: bv32, table: seq<bv32>, o: nat, byte: bv32)
    requires BytesMarked(group, table) && o < 32 && byte < 0x100 && (byte != 0 ==> table[o] != 0)
    ensures BytesMarked(if byte == 0 then group & !Mask(o) else group, table[o := byte])
  {
    if byte == 0 {
      GroupClear(group, table, o);
    } else {
      GroupKeep(group, table, o, byte);
    }
  }

  /** The two-level search finds what a linear scan of the lists finds. */
  lemma HighestIsLowest(t: TwoLevel)
    requires Marked(t) && exists p :: 0 <= p < |t.lists| && NonEmpty(t.lists, p)
    ensures t.group != 0 && t.table[First(t.group)] != 0 && Highest(t) == Lowest(t.lists) < |t.lists|
    ensures t.lists[Lowest(t.lists)] != []
  {
    var p :| 0 <= p < |t.lists| && NonEmpty(t.lists, p);
    WasMarked(t, p);
    var o := FirstByte(t, Offset(p));
    FirstIsLowest(t.table[o]);
    var b := First(t.table[o]);
    assert ListMarked(t.table, t.lists, o, b);
    forall q | 0 <= q < 8 * o + b ensures !NonEmpty(t.lists, q) {
      EmptyBelow(t, o, b, q);
    }
    LowestIs(t.lists, 8 * o + b);
  }

  lemma EmptyBelow(t: TwoLevel, o: nat, b: nat, q: nat)
    requires Marked(t) && o < 32 && b < 8 && q < 8 * o + b
    requires forall k :: 0 <= k < o ==> t.table[k] == 0
    requires forall c :: 0 <= c < b ==> !Bit(t.table[o], c)
    ensures !NonEmpty(t.lists, q)
  {
    assert ListMarked(t.table, t.lists, Offset(q), BitOf(q));
    if Offset(q) < o {
      NoBit(t.table[Offset(q)], BitOf(q));
    }
  }

  lemma NoBit(v: bv32, p: nat)
    requires v == 0 && p < 32
    ensures !Bit(v, p)
  {}

  lemma FirstByte(t: TwoLevel, k: nat) returns (o: nat)
    requires BytesMarked(t.group, t.table) && k < 32 && t.table[k] != 0
    ensures t.group != 0 && o == First(t.group) && 0 < t.table[o] < 0x100
    ensures forall q :: 0 <= q < o ==> t.table[q] == 0
  {
    assert ByteMarked(t.group, t.table, k);
    SomeBit(t.group, k);
    FirstIsLowest(t.group);
    o := First(t.group);
    assert ByteMarked(t.group, t.table, o);
    forall q | 0 <= q < o ensures t.table[q] == 0 {
      assert ByteMarked(t.group, t.table, q);
    }
  }

  // ---------- up to 32 priorities

  datatype Flat = Flat(lists: seq<seq<nat>>, group: bv32)

  /** add_task_to_ready_list */
  function AddFlat(f: Flat, prio: nat, id: nat): Flat
    requires prio < |f.lists| <= 32
  {
    Flat(f.lists[prio := f.lists[prio] + [id]], f.group | Mask(prio))
  }

  /** del_task_to_ready_list with the mask that task_create has set. */
  function DelMasked(f: Flat, own: nat, prio: nat, id: nat): Flat
    requires own < 32 && prio < |f.lists|
  {
    var list := Without(f.lists[prio], id);
    Flat(f.lists[prio := list], if list == [] then f.group & !Mask(own) else f.group)
  }

  /** The same as long as the priority is that of the creation. */
  function DelFlat(f: Flat, prio: nat, id: nat): Flat
    requires prio < |f.lists| <= 32
  {
    DelMasked(f, prio, prio, id)
  }

  lemma AddFlatMarks(f: Flat, prio: nat, id: nat)
    requires Marks(f.group, f.lists) && prio < |f.lists|
    ensures Marks(AddFlat(f, prio, id).group, AddFlat(f, prio, id).lists)
  {
    MarksAdd(f.group, f.lists, prio, f.lists[prio] + [id]);
  }

  lemma DelFlatMarks(f: Flat, prio: nat, id: nat)
    requires Marks(f.group, f.lists) && prio < |f.lists|
    ensures Marks(DelFlat(f, prio, id).group, DelFlat(f, prio, id).lists)
  {
    var list := Without(f.lists[prio], id);
    if list == [] {
      MarksEmpty(f.group, f.lists, prio);
    } else {
      MarksKeep(f.group, f.lists, prio, list);
    }
  }

  /**
   task_set_prio from one priority to another: the task leaves the one list and joins the other, but all the time
   with the mask of the priority own that it was created with.
   */
  function SetPrioFlat(f: Flat, own: nat, was: nat, now: nat, id: nat): Flat
    requires own < 32 && was < |f.lists| <= 32 && now < |f.lists|
  {
    var r := DelMasked(f, own, was, id);
    Flat(r.lists[now := r.lists[now] + [id]], r.group | Mask(own))
  }

  /**
   So a change of priority keeps bitmap and lists in step if and only if the new priority is that of the creation or has
   ready tasks already, the old list does not run empty, and there is a ready task where the mask points to.
   */
  lemma SetPrioIff(f: Flat, own: nat, was: nat, now: nat, id: nat)
    requires Marks(f.group, f.lists) && own < |f.lists| && was < |f.lists| && now < |f.lists|
    ensures Marks(SetPrioFlat(f, own, was, now, id).group, SetPrioFlat(f, own, was, now, id).lists)
            <==> && (now == own || f.lists[now] != [])
                 && (now == was || Without(f.lists[was], id) != [] || (was != own && f.lists[was] == []))
                 && (own == now || own == was || f.lists[own] != [])
  {
    SetPrioInStep(f, own, was, now, id);
    MovedInStep(f.lists, own, was, now, id);
  }

  lemma SetPrioInStep(f: Flat, own: nat, was: nat, now: nat, id: nat)
    requires Marks(f.group, f.lists) && own < 32 && was < |f.lists| && now < |f.lists|
    ensures Marks(SetPrioFlat(f, own, was, now, id).group, SetPrioFlat(f, own, was, now, id).lists)
            <==> InStep(f.lists, own, Moved(f.lists, was, now, id))
  {
    var r, after := SetPrioFlat(f, own, was, now, id), Moved(f.lists, was, now, id);
    SetPrioIs(f, own, was, now, id);
    assert r.group == f.group | Mask(own) && r.lists == after;
    MovedMarks(f.group, f.lists, own, after);
  }

  lemma SetPrioIs(f: Flat, own: nat, was: nat, now: nat, id: nat)
    requires own < 32 && was < |f.lists| <= 32 && now < |f.lists|
    ensures SetPrioFlat(f, own, was, now, id) == Flat(Moved(f.lists, was, now, id), f.group | Mask(own))
  {
    ClearThenSet(f.group, Mask(own));
  }

  /** For a task that is ready: the same condition, without the case of an old list that was empty before. */
  lemma SetPrioReadyIff(f: Flat, own: nat, was: nat, now: nat, id: nat)
    requires Marks(f.group, f.lists) && own < |f.lists| && was < |f.lists| && now < |f.lists| && id in f.lists[was]
    ensures Marks(SetPrioFlat(f, own, was, now, id).group, SetPrioFlat(f, own, was, now, id).lists)
            <==> && (now == own || f.lists[now] != [])
                 && (now == was || Without(f.lists[was], id) != [])
                 && (own == now || own == was || f.lists[own] != [])
  {
    SetPrioIff(f, own, was, now, id);
  }

  /**
   Two changes of the task 0, created at priority 5 like 1, with 2 ready at 7. The first one, to 7, keeps step. When the
   other two are not ready any more, setting it to 7 again sets the bit of the empty list 5.
   */
  lemma SetPrioTwice(f: Flat) returns (moved: Flat, alone: Flat, again: Flat)
    requires Marks(f.group, f.lists) && f.lists == NoTasks(32)[5 := [0, 1]][7 := [2]]
    ensures moved == SetPrioFlat(f, 5, 5, 7, 0) && Marks(moved.group, moved.lists)
    ensures alone == DelFlat(DelFlat(moved, 5, 1), 7, 2) && Marks(alone.group, alone.lists) && alone.lists[7] == [0]
    ensures again == SetPrioFlat(alone, 5, 7, 7, 0) && !Marks(again.group, again.lists)
  {
    TwoLeft(0, 1);
    moved := SetPrioFlat(f, 5, 5, 7, 0);
    SetPrioIff(f, 5, 5, 7, 0);
    TwoLeft(1, 1);
    DelFlatMarks(moved, 5, 1);
    var r := DelFlat(moved, 5, 1);
    TwoLeft(2, 0);
    DelFlatMarks(r, 7, 2);
    alone := DelFlat(r, 7, 2);
    again := SetPrioFlat(alone, 5, 7, 7, 0);
    SetPrioIff(alone, 5, 7, 7, 0);
  }

  /** What is left of short lists. */
  lemma TwoLeft(x: nat, y: nat)
    ensures Without([x], x) == [] && (x != y ==> Without([x, y], x) == [y])
  {
    assert [x][1..] == [] && [x, y][1..] == [y];
    WithoutAbsent([], x);
    if x != y {
      WithoutAbsent([y], x);
    }
  }

  lemma ClearThenSet(g: bv32, m: bv32)
    ensures (g & !m) | m == g | m
  {}

  function Moved(lists: seq<seq<nat>>, was: nat, now: nat, id: nat): seq<seq<nat>>
    requires was < |lists| && now < |lists|
  {
    var left := lists[was := Without(lists[was], id)];
    left[now := left[now] + [id]]
  }

  /** What the lists have to be like when nothing but the bit own has been set. */
  ghost predicate InStep(lists: seq<seq<nat>>, own: nat, after: seq<seq<nat>>) {
    |after| == |lists| && forall p :: 0 <= p < 32 ==> (NonEmpty(lists, p) || p == own <==> NonEmpty(after, p))
  }

  lemma MovedMarks(group: bv32, lists: seq<seq<nat>>, own: nat, after: seq<seq<nat>>)
    requires Marks(group, lists) && own < 32 && |after| == |lists|
    ensures Marks(group | Mask(own), after) <==> InStep(lists, own, after)
  {
    var g := group | Mask(own);
    forall p | 0 <= p < 32 ensures Bit(g, p) <==> NonEmpty(lists, p) || p == own {
      SetBit(group, own, p);
      assert Bit(group, p) <==> NonEmpty(lists, p);
    }
    if InStep(lists, own, after) {
      forall p | 0 <= p < 32 ensures Bit(g, p) <==> NonEmpty(after, p) {
        assert NonEmpty(lists, p) || p == own <==> NonEmpty(after, p);
      }
    } else {
      var p :| 0 <= p < 32 && !(NonEmpty(lists, p) || p == own <==> NonEmpty(after, p));
      OutOfStep(g, after, p);
    }
  }

  lemma OutOfStep(group: bv32, lists: seq<seq<nat>>, p: nat)
    requires p < 32 && !(Bit(group, p) <==> NonEmpty(lists, p))
    ensures !Marks(group, lists)
  {}

  lemma MovedInStep(lists: seq<seq<nat>>, own: nat, was: nat, now: nat, id: nat)
    requires |lists| <= 32 && own < |lists| && was < |lists| && now < |lists|
    ensures InStep(lists, own, Moved(lists, was, now, id))
            <==> && (now == own || lists[now] != [])
                 && (now == was || Without(lists[was], id) != [] || (was != own && lists[was] == []))
                 && (own == now || own == was || lists[own] != [])
  {
    var after := Moved(lists, was, now, id);
    forall p | 0 <= p < 32
      ensures NonEmpty(after, p) <==> p == now || if p == was then Without(lists[was], id) != [] else NonEmpty(lists, p)
    {}
    assert NonEmpty(after, now) && (NonEmpty(lists, own) <==> lists[own] != []);
    assert NonEmpty(lists, was) <==> lists[was] != [];
    assert NonEmpty(lists, now) <==> lists[now] != [];
  }

  // ---------- runs of both

  datatype Op = AddOp(prio: nat, id: nat) | DelOp(prio: nat, id: nat)

  function ListsAfter(lists: seq<seq<nat>>, op: Op): seq<seq<nat>>
    requires op.prio < |lists|
  {
    match op
    case AddOp(p, id) => lists[p := lists[p] + [id]]
    case DelOp(p, id) => lists[p := Without(lists[p], id)]
  }

  /** The priorities are those that there are. */
  predicate RunOk(lists: seq<seq<nat>>, ops: seq<Op>)
    decreases |ops|
  {
    ops != [] ==> ops[0].prio < |lists| && RunOk(ListsAfter(lists, ops[0]), ops[1..])
  }

  function RunLists(lists: seq<seq<nat>>, ops: seq<Op>): seq<seq<nat>>
    requires RunOk(lists, ops)
    decreases |ops|
  {
    if ops == [] then lists else RunLists(ListsAfter(lists, ops[0]), ops[1..])
  }

  function RunTwoLevel(t: TwoLevel, ops: seq<Op>): TwoLevel
    requires RunOk(t.lists, ops) && |t.table| == 32 && |t.lists| <= 256
    decreases |ops|
  {
    if ops == [] then t
    else if ops[0].AddOp? then RunTwoLevel(Add(t, ops[0].prio, ops[0].id), ops[1..])
    else RunTwoLevel(Del(t, ops[0].prio, ops[0].id), ops[1..])
  }

  function RunFlat(f: Flat, ops: seq<Op>): Flat
    requires RunOk(f.lists, ops) && |f.lists| <= 32
    decreases |ops|
  {
    if ops == [] then f
    else if ops[0].AddOp? then RunFlat(AddFlat(f, ops[0].prio, ops[0].id), ops[1..])
    else RunFlat(DelFlat(f, ops[0].prio, ops[0].id), ops[1..])
  }

  lemma {:induction false} RunTwoLevelMarked(t: TwoLevel, ops: seq<Op>)
    requires Marked(t) && RunOk(t.lists, ops)
    ensures Marked(RunTwoLevel(t, ops)) && RunTwoLevel(t, ops).lists == RunLists(t.lists, ops)
    decreases |ops|
  {
    if ops != [] {
      if ops[0].AddOp? {
        AddMarked(t, ops[0].prio, ops[0].id);
        RunTwoLevelMarked(Add(t, ops[0].prio, ops[0].id), ops[1..]);
      } else {
        DelMarked(t, ops[0].prio, ops[0].id);
        RunTwoLevelMarked(Del(t, ops[0].prio, ops[0].id), ops[1..]);
      }
    }
  }

  lemma {:induction false} RunFlatMarked(f: Flat, ops: seq<Op>)
    requires Marks(f.group, f.lists) && RunOk(f.lists, ops)
    ensures var r := RunFlat(f, ops); Marks(r.group, r.lists) && r.lists == RunLists(f.lists, ops)
    decreases |ops|
  {
    if ops != [] {
      if ops[0].AddOp? {
        AddFlatMarks(f, ops[0].prio, ops[0].id);
        RunFlatMarked(AddFlat(f, ops[0].prio, ops[0].id), ops[1..]);
      } else {
        DelFlatMarks(f, ops[0].prio, ops[0].id);
        RunFlatMarked(DelFlat(f, ops[0].prio, ops[0].id), ops[1..]);
      }
    }
  }

  /** What sch_init leaves. */
  function NoTasks(n: nat): seq<seq<nat>> {
    seq(n, _ => [])
  }

  function InitTwoLevel(n: nat): (t: TwoLevel)
    ensures |t.lists| == n && |t.table| == 32
  {
    TwoLevel(NoTasks(n), 0, seq(32, _ => 0))
  }

  function InitFlat(n: nat): Flat {
    Flat(NoTasks(n), 0)
  }

  lemma InitMarked(n: nat)
    requires n <= 256
    ensures Marked(InitTwoLevel(n)) && (n <= 32 ==> Marks(InitFlat(n).group, InitFlat(n).lists))
  {
    var t := InitTwoLevel(n);
    forall o | 0 <= o < 32 ensures ByteMarked(t.group, t.table, o) {
      NoBit(0, o);
    }
    forall o, b | 0 <= o < 32 && 0 <= b < 8 ensures ListMarked(t.table, t.lists, o, b) {
      NoBit(0, b);
    }
    forall p | 0 <= p < 32 ensures !Bit(0, p) {
      NoBit(0, p);
    }
  }

  /** After any run from sch_init, the search through group and table finds what a linear scan finds. */
  lemma TwoLevelFindsLowest(n: nat, ops: seq<Op>)
    requires n <= 256 && RunOk(NoTasks(n), ops)
    requires exists p :: 0 <= p < n && NonEmpty(RunLists(NoTasks(n), ops), p)
    ensures var t := RunTwoLevel(InitTwoLevel(n), ops);
            && t.group != 0 && |t.table| == 32 && t.table[First(t.group)] != 0
            && Highest(t) == Lowest(RunLists(NoTasks(n), ops))
  {
    InitMarked(n);
    RunTwoLevelMarked(InitTwoLevel(n), ops);
    RunLength(NoTasks(n), ops);
    HighestIsLowest(RunTwoLevel(InitTwoLevel(n), ops));
  }

  /** So does the flat bitmap, up to 32 priorities. */
  lemma FlatFindsLowest(n: nat, ops: seq<Op>)
    requires n <= 32 && RunOk(NoTasks(n), ops)
    requires exists p :: 0 <= p < n && NonEmpty(RunLists(NoTasks(n), ops), p)
    ensures var f := RunFlat(InitFlat(n), ops);
            f.group != 0 && First(f.group) == Lowest(RunLists(NoTasks(n), ops))
  {
    InitMarked(n);
    RunFlatMarked(InitFlat(n), ops);
    RunLength(NoTasks(n), ops);
    MarksLowest(RunFlat(InitFlat(n), ops).group, RunFlat(InitFlat(n), ops).lists);
  }

  lemma {:induction false} RunLength(lists: seq<seq<nat>>, ops: seq<Op>)
    requires RunOk(lists, ops)
    ensures |RunLists(lists, ops)| == |lists|
    decreases |ops|
  {
    if ops != [] {
      RunLength(ListsAfter(lists, ops[0]), ops[1..]);
    }
  }

  // ---------- the two-level form in place

  class ReadyLists {
    var lists: seq<seq<nat>>
    var group: bv32
    var table: seq<bv32>

    ghost predicate Valid()
      reads this
    {
      Marked(Abs())
    }

    ghost function Abs(): TwoLevel
      reads this
    {
      TwoLevel(lists, group, table)
    }

    /** sch_init */
    constructor (n: nat)
      requires n <= 256
      ensures Valid() && Abs() == InitTwoLevel(n)
    {
      InitMarked(n);
      lists, group, table := NoTasks(n), 0, seq(32, _ => 0);
    }

    /** add_task_to_ready_list */
    method AddTask(prio: nat, id: nat)
      requires Valid() && prio < |lists|
      modifies this
      ensures Valid() && Abs() == Add(old(Abs()), prio, id)
    {
      AddMarked(Abs(), prio, id);
      Append(prio, id);
    }

    method Append(prio: nat, id: nat)
      requires prio < |lists| <= 256 && |table| == 32
      modifies this
      ensures Abs() == Add(old(Abs()), prio, id)
    {
      Store(prio, lists[prio] + [id], Offset(prio), table[Offset(prio)] | Mask(BitOf(prio)),
            group | Mask(Offset(prio)));
    }

    method Store(prio: nat, list: seq<nat>, o: nat, byte: bv32, g: bv32)
      requires prio < |lists| && o < |table|
      modifies this
      ensures Abs() == TwoLevel(old(lists)[prio := list], g, old(table)[o := byte])
    {
      lists := lists[prio := list];
      table := table[o := byte];
      group := g;
    }

    /** del_task_to_ready_list */
    method DelTask(prio: nat, id: nat)
      requires Valid() && prio < |lists|
      modifies this
      ensures Valid() && Abs() == Del(old(Abs()), prio, id)
    {
      DelMarked(Abs(), prio, id);
      var list := Without(lists[prio], id);
      if list == [] {
        StoreEmpty(prio, table[Offset(prio)] & !Mask(BitOf(prio)));
      } else {
        lists := lists[prio := list];
      }
    }

    method StoreEmpty(prio: nat, byte: bv32)
      requires prio < |lists| <= 256 && |table| == 32
      modifies this
      ensures Abs() == Emptied(old(Abs()), prio, byte)
    {
      lists := lists[prio := []];
      table := table[Offset(prio) := byte];
      if byte == 0 {
        group := group & !Mask(Offset(prio));
      }
    }

    /** The search of sch_start and switch_task. */
    method HighestReady() returns (prio: nat)
      requires Valid() && exists p :: 0 <= p < |lists| && NonEmpty(lists, p)
      ensures prio == Lowest(lists) < |lists| && lists[prio] != []
    {
      HighestIsLowest(Abs());
      var o := First(group);
      prio := o * 8 + First(table[o]);
    }
  }
}
