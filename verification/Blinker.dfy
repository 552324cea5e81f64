/** The blinker's list: a singly linked list (blink.S) whose nodes live in a first-fit arena
    (mp1_malloc and mp1_free in fish.c) where a node with location 0 is free. */
module Blinker {
  import opened Arithmetic

  type u16 = x: int | 0 <= x < 0x1_0000

  const SLOTS := 80 * 25
  const NULL := -1

  datatype Blink = Blink(location: u16, onChar: char, offChar: char, onLength: u16, offLength: u16,
                         countdown: u16, status: u16)

  /** A pointer is NULL or the index of a slot. */
  datatype Slot = Slot(blink: Blink, next: int)

  const FREE := Slot(Blink(0, '\0', '\0', 0, 0, 0, 0), NULL)

  // ----- what happens to one node

  function Started(b: Blink): Blink { b.(status := 1, countdown := b.onLength) }

  /** One tick: a 16-bit decrement, a signed test, and on expiry a toggle. */
  function Ticked(b: Blink): Blink {
    var c := (b.countdown + 0xFFFF) % 0x1_0000;
    if 0 < c < 0x8000 then b.(countdown := c)
    else if b.status % 2 == 1 then b.(countdown := b.offLength, status := b.status - 1)
    else b.(countdown := b.onLength, status := b.status + 1)
  }

  function Synced(dst: Blink, src: Blink): Blink {
    dst.(onLength := src.onLength, offLength := src.offLength, countdown := src.countdown, status := src.status)
  }

  // ----- the list, front first; each node with the slot it lives in

  datatype Entry = Entry(slot: nat, blink: Blink)

  ghost function SlotAt(list: seq<Entry>, k: nat): int { if k < |list| then list[k].slot else NULL }

  ghost predicate InList(list: seq<Entry>, i: int) { exists k :: 0 <= k < |list| && list[k].slot == i }

  /** The most recently added node of that location, or the length of the list. */
  ghost function Position(list: seq<Entry>, location: int, from: nat := 0): (k: nat)
    requires from <= |list|
    ensures from <= k <= |list|
    ensures k < |list| ==> list[k].blink.location == location
    ensures forall m :: from <= m < k ==> list[m].blink.location != location
    decreases |list| - from
  {
    if from == |list| || list[from].blink.location == location then from else Position(list, location, from + 1)
  }

  ghost function FirstFree(slots: seq<Slot>, from: nat := 0): (i: nat)
    requires from <= |slots|
    ensures from <= i <= |slots|
    ensures i < |slots| ==> slots[i].blink.location == 0
    ensures forall m :: from <= m < i ==> slots[m].blink.location != 0
    decreases |slots| - from
  {
    if from == |slots| || slots[from].blink.location == 0 then from else FirstFree(slots, from + 1)
  }

  ghost predicate Distinct(list: seq<Entry>) {
    forall k, m :: 0 <= k < m < |list| ==> list[k].slot != list[m].slot
  }

  /** Node `k` is stored in its slot, with the pointer to node `k + 1`. */
  ghost predicate Stored(slots: seq<Slot>, list: seq<Entry>, k: nat)
    requires k < |list|
  {
    && list[k].slot < |slots| && list[k].blink.location != 0
    && slots[list[k].slot] == Slot(list[k].blink, SlotAt(list, k + 1))
  }

  ghost predicate Accounted(slots: seq<Slot>, list: seq<Entry>, i: nat)
    requires i < |slots|
  {
    slots[i].blink.location != 0 ==> InList(list, i)
  }

  /** List and arena agree: following the pointers from `head` gives exactly `list`, which
      repeats no slot, and the slots in it are exactly those with a non-zero location. */
  ghost predicate Agree(slots: seq<Slot>, head: int, list: seq<Entry>) {
    && |slots| == SLOTS && head == SlotAt(list, 0) && Distinct(list)
    && (forall k: nat :: k < |list| ==> Stored(slots, list, k))
    && (forall i: nat :: i < SLOTS ==> Accounted(slots, list, i))
  }

  ghost function Dropped(list: seq<Entry>, k: nat): seq<Entry>
    requires k < |list|
  {
    list[..k] + list[k + 1..]
  }

  /** The list after its first `count` nodes have been ticked. */
  ghost function TickedFirst(list: seq<Entry>, count: nat): (r: seq<Entry>)
    requires count <= |list|
    ensures |r| == |list|
  {
    seq(|list|, k requires 0 <= k < |list| => if k < count then Entry(list[k].slot, Ticked(list[k].blink)) else list[k])
  }

  lemma InListAt(list: seq<Entry>, k: nat)
    requires k < |list|
    ensures InList(list, list[k].slot)
  {}

  /** Changing what a node holds, but not its location. */
  lemma UpdateAgrees(slots: seq<Slot>, head: int, list: seq<Entry>, k: nat, b: Blink)
    requires Agree(slots, head, list) && k < |list| && b.location == list[k].blink.location
    ensures Stored(slots, list, k)
    ensures Agree(slots[list[k].slot := Slot(b, SlotAt(list, k + 1))], head, list[k := Entry(list[k].slot, b)])
  {
    assert Stored(slots, list, k);
    var slots' := slots[list[k].slot := Slot(b, SlotAt(list, k + 1))];
    var list' := list[k := Entry(list[k].slot, b)];
    forall m: nat | m < |list'| ensures Stored(slots', list', m) {
      assert Stored(slots, list, m);
    }
    forall i: nat | i < SLOTS ensures Accounted(slots', list', i) {
      assert Accounted(slots, list, i);
      if m :| 0 <= m < |list| && list[m].slot == i { InListAt(list', m); }
    }
  }

  /** Adding at the front keeps list and arena in agreement if and only if the new location
      is not zero. */
  lemma AddAgrees(slots: seq<Slot>, head: int, list: seq<Entry>, b: Blink)
    requires Agree(slots, head, list) && FirstFree(slots) < SLOTS
    ensures var i := FirstFree(slots);
      Agree(slots[i := Slot(b, head)], i, [Entry(i, b)] + list) <==> b.location != 0
  {
    var i := FirstFree(slots);
    var more := [Entry(i, b)] + list;
    var slots' := slots[i := Slot(b, head)];
    if b.location == 0 {
      assert !Stored(slots', more, 0);
    } else {
      forall k: nat | k < |more| ensures Stored(slots', more, k) {
        if k > 0 { assert Stored(slots, list, k - 1) && more[k] == list[k - 1]; }
      }
      forall m | 0 < m < |more| ensures more[m].slot != i {
        assert Stored(slots, list, m - 1);
      }
      forall j: nat | j < SLOTS ensures Accounted(slots', more, j) {
        assert Accounted(slots, list, j);
        if j == i {
          InListAt(more, 0);
        } else if k :| 0 <= k < |list| && list[k].slot == j {
          InListAt(more, k + 1);
        }
      }
    }
  }

  ghost function UpTo(n: nat): (s: set<nat>)
    ensures forall i: nat :: i in s <==> i < n
  {
    if n == 0 then {} else UpTo(n - 1) + {n - 1}
  }

  ghost function Slots(list: seq<Entry>): (s: set<nat>)
    ensures forall i: nat :: i in s <==> InList(list, i)
  {
    set k | 0 <= k < |list| :: list[k].slot
  }

  lemma SubsetSize(a: set<nat>, b: set<nat>)
    requires a <= b
    ensures |a| <= |b|
  {
    assert b == a + (b - a);
  }

  lemma {:induction false} CountUpTo(n: nat)
    ensures |UpTo(n)| == n
  {
    if n > 0 { CountUpTo(n - 1); }
  }

  lemma {:induction false} CountSlots(list: seq<Entry>)
    requires Distinct(list)
    ensures |Slots(list)| == |list|
    decreases |list|
  {
    if list != [] {
      var init, last := list[..|list| - 1], list[|list| - 1];
      CountSlots(init);
      forall i: nat ensures InList(list, i) <==> InList(init, i) || i == last.slot {
        if k :| 0 <= k < |init| && init[k].slot == i { assert list[k].slot == i; }
        if k :| 0 <= k < |list| && list[k].slot == i { assert k < |init| ==> init[k].slot == i; }
        InListAt(list, |list| - 1);
      }
      assert Slots(list) == Slots(init) + {last.slot};
    }
  }

  lemma RoomLeft(list: seq<Entry>, n: nat, i: nat)
    requires Distinct(list) && forall k :: 0 <= k < |list| ==> list[k].slot < n && list[k].slot != i
    requires i < n
    ensures |list| < n
  {
    CountSlots(list);
    CountUpTo(n);
    SubsetSize(Slots(list), UpTo(n) - {i});
  }

  lemma NoRoomLeft(list: seq<Entry>, n: nat)
    requires Distinct(list) && forall k :: 0 <= k < |list| ==> list[k].slot < n
    requires forall i: nat :: i < n ==> InList(list, i)
    ensures |list| == n
  {
    CountSlots(list);
    CountUpTo(n);
    assert Slots(list) == UpTo(n);
  }

  /** A list that agrees with the arena is full exactly when no slot is free. */
  lemma FullWhenNoneFree(slots: seq<Slot>, head: int, list: seq<Entry>)
    requires Agree(slots, head, list)
    ensures |list| <= SLOTS && (FirstFree(slots) == SLOTS <==> |list| == SLOTS)
  {
    forall k: nat | k < |list| ensures list[k].slot < SLOTS { assert Stored(slots, list, k); }
    var i := FirstFree(slots);
    if i < SLOTS {
      forall k: nat | k < |list| ensures list[k].slot != i { assert Stored(slots, list, k); }
      RoomLeft(list, SLOTS, i);
    } else {
      forall m: nat | m < SLOTS ensures InList(list, m) { assert Accounted(slots, list, m); }
      NoRoomLeft(list, SLOTS);
    }
  }

  /** Unlinking node `k` and clearing its slot. */
  lemma RemoveAgrees(slots: seq<Slot>, head: int, list: seq<Entry>, k: nat, linked: seq<Slot>)
    requires Agree(slots, head, list) && k < |list|
    requires k > 0 ==> Stored(slots, list, k - 1)
    requires linked == if k == 0 then slots
      else slots[list[k - 1].slot := Slot(list[k - 1].blink, SlotAt(list, k + 1))]
    ensures list[k].slot < SLOTS
    ensures Agree(linked[list[k].slot := FREE], if k == 0 then SlotAt(list, 1) else head, Dropped(list, k))
  {
    assert Stored(slots, list, k);
    var freed := linked[list[k].slot := FREE];
    var less := Dropped(list, k);
    forall m: nat | m < |less| ensures Stored(freed, less, m) {
      var o := if m < k then m else m + 1;
      assert less[m] == list[o] && Stored(slots, list, o);
    }
    forall i: nat | i < SLOTS ensures Accounted(freed, less, i) {
      assert Accounted(slots, list, i);
      if i != list[k].slot {
        if m :| 0 <= m < |list| && list[m].slot == i {
          InListAt(less, if m < k then m else m - 1);
        }
      }
    }
  }

  // ----- any sequence of operations on the list

  datatype Op = Add(blink: Blink) | Remove(location: u16) | Sync(src: u16, dst: u16) | Tick

  /** The slot the next node goes to: the lowest one the list does not use. */
  ghost function NextSlot(list: seq<Entry>, from: nat := 0): (i: nat)
    ensures from <= i && (from <= SLOTS ==> i <= SLOTS)
    ensures i < SLOTS ==> !InList(list, i)
    decreases SLOTS - from
  {
    if from >= SLOTS || !InList(list, from) then from else NextSlot(list, from + 1)
  }

  lemma {:induction false} NextSlotIsFirstFree(slots: seq<Slot>, head: int, list: seq<Entry>, from: nat)
    requires Agree(slots, head, list) && from <= SLOTS
    ensures NextSlot(list, from) == FirstFree(slots, from)
    decreases SLOTS - from
  {
    if from < SLOTS {
      assert Accounted(slots, list, from);
      forall k: nat | k < |list| && list[k].slot == from ensures slots[from].blink.location != 0 {
        assert Stored(slots, list, k);
      }
      NextSlotIsFirstFree(slots, head, list, from + 1);
    }
  }

  ghost function Step(list: seq<Entry>, op: Op): seq<Entry> {
    match op
    case Add(b) =>
      if b.location < SLOTS && |list| < SLOTS then [Entry(NextSlot(list), Started(b))] + list else list
    case Remove(location) =>
      var k := Position(list, location);
      if k < |list| then Dropped(list, k) else list
    case Sync(s, d) =>
      var src, dst := Position(list, s), Position(list, d);
      if src < |list| && dst < |list| then
        list[dst := Entry(list[dst].slot, Synced(list[dst].blink, list[src].blink))]
      else list
    case Tick => TickedFirst(list, |list|)
  }

  /** The operation removes the node in that slot or is a sync that overwrites it. */
  ghost predicate Touches(list: seq<Entry>, op: Op, slot: nat) {
    || (op.Remove? && SlotAt(list, Position(list, op.location)) == slot)
    || (op.Sync? && SlotAt(list, Position(list, op.dst)) == slot)
  }

  ghost function TickCount(ops: seq<Op>): nat {
    if ops == [] then 0 else (if ops[0].Tick? then 1 else 0) + TickCount(ops[1..])
  }

  function After(b: Blink, ticks: nat): Blink
    decreases ticks
  {
    if ticks == 0 then b else After(Ticked(b), ticks - 1)
  }

  ghost predicate Holds(list: seq<Entry>, slot: nat, b: Blink) { Entry(slot, b) in list }

  lemma HoldsAt(list: seq<Entry>, k: nat)
    requires k < |list|
    ensures Holds(list, list[k].slot, list[k].blink)
  {}

  lemma StepHolds(list: seq<Entry>, op: Op, slot: nat, b: Blink)
    requires Holds(list, slot, b) && !Touches(list, op, slot)
    ensures Holds(Step(list, op), slot, if op.Tick? then Ticked(b) else b)
  {
    var k :| 0 <= k < |list| && list[k] == Entry(slot, b);
    match op
    case Add(added) =>
      if added.location < SLOTS && |list| < SLOTS { HoldsAt(Step(list, op), k + 1); }
    case Remove(location) =>
      var p := Position(list, location);
      if p < |list| {
        assert p != k;
        HoldsAt(Dropped(list, p), if k < p then k else k - 1);
      }
    case Sync(s, d) => HoldsAt(Step(list, op), k);
    case Tick => HoldsAt(TickedFirst(list, |list|), k);
  }

  // ----- the memory: the same operations on the arena and the list head

  datatype Heap = Heap(slots: seq<Slot>, head: int)

  /** The nodes met from pointer `at` on, at most `limit` of them. */
  ghost function Walk(slots: seq<Slot>, at: int, limit: nat): (list: seq<Entry>)
    ensures forall k :: 0 <= k < |list| ==> list[k].slot < |slots|
    decreases limit
  {
    if limit == 0 || !(0 <= at < |slots|) then []
    else [Entry(at, slots[at].blink)] + Walk(slots, slots[at].next, limit - 1)
  }

  ghost function Nodes(h: Heap): (list: seq<Entry>)
    ensures forall k :: 0 <= k < |list| ==> list[k].slot < |h.slots|
  {
    Walk(h.slots, h.head, SLOTS)
  }

  /** The pointers lead through exactly the slots with a non-zero location, each once, to NULL. */
  ghost predicate Good(h: Heap) { Agree(h.slots, h.head, Nodes(h)) }

  lemma {:induction false} WalkIs(slots: seq<Slot>, head: int, list: seq<Entry>, k: nat, limit: nat)
    requires Agree(slots, head, list) && k <= |list| <= k + limit
    ensures Walk(slots, SlotAt(list, k), limit) == list[k..]
    decreases limit
  {
    if k < |list| {
      assert Stored(slots, list, k);
      WalkIs(slots, head, list, k + 1, limit - 1);
    }
  }

  /** Only one list agrees with a given memory. */
  lemma NodesAre(h: Heap, list: seq<Entry>)
    requires Agree(h.slots, h.head, list)
    ensures Nodes(h) == list && Good(h)
  {
    FullWhenNoneFree(h.slots, h.head, list);
    WalkIs(h.slots, h.head, list, 0, SLOTS);
  }

  ghost function Unlinked(h: Heap, k: nat): seq<Slot>
    requires k < |Nodes(h)|
  {
    if k == 0 then h.slots
    else
      var prev, next := Nodes(h)[k - 1].slot, h.slots[Nodes(h)[k].slot].next;
      h.slots[prev := h.slots[prev].(next := next)]
  }

  /** The slots of the list ticked, the others as they were. */
  ghost function TickedIn(slots: seq<Slot>, list: seq<Entry>): (r: seq<Slot>)
    ensures |r| == |slots|
  {
    seq(|slots|, i requires 0 <= i < |slots| =>
      if InList(list, i) then slots[i].(blink := Ticked(slots[i].blink)) else slots[i])
  }

  /** What the program does to memory. */
  ghost function Act(h: Heap, op: Op): (r: Heap)
    ensures |r.slots| == |h.slots|
  {
    var list := Nodes(h);
    match op
    case Add(b) =>
      var i := FirstFree(h.slots);
      if b.location < SLOTS && i < |h.slots| then Heap(h.slots[i := Slot(Started(b), h.head)], i) else h
    case Remove(location) =>
      var k := Position(list, location);
      if k < |list| then
        Heap(Unlinked(h, k)[list[k].slot := FREE], if k == 0 then h.slots[list[k].slot].next else h.head)
      else h
    case Sync(s, d) =>
      var src, dst := Position(list, s), Position(list, d);
      if src < |list| && dst < |list| then
        var to := list[dst].slot;
        h.(slots := h.slots[to := h.slots[to].(blink := Synced(h.slots[to].blink, h.slots[list[src].slot].blink))])
      else h
    case Tick => h.(slots := TickedIn(h.slots, list))
  }

  /** The operations the arena is made for: nothing is added at location 0. */
  predicate Proper(op: Op) { op.Add? ==> op.blink.location != 0 }

  lemma TickAgrees(slots: seq<Slot>, head: int, list: seq<Entry>)
    requires Agree(slots, head, list)
    ensures Agree(TickedIn(slots, list), head, TickedFirst(list, |list|))
  {
    var slots', list' := TickedIn(slots, list), TickedFirst(list, |list|);
    forall k: nat | k < |list'| ensures Stored(slots', list', k) {
      assert Stored(slots, list, k);
      InListAt(list, k);
    }
    forall i: nat | i < SLOTS ensures Accounted(slots', list', i) {
      assert Accounted(slots, list, i);
      if k :| 0 <= k < |list| && list[k].slot == i { InListAt(list', k); }
    }
  }

  lemma RemoveIsStep(h: Heap, location: u16)
    requires Good(h)
    ensures Good(Act(h, Remove(location))) && Nodes(Act(h, Remove(location))) == Step(Nodes(h), Remove(location))
  {
    var list := Nodes(h);
    var k := Position(list, location);
    if k < |list| {
      assert Stored(h.slots, list, k);
      if k > 0 { assert Stored(h.slots, list, k - 1); }
      RemoveAgrees(h.slots, h.head, list, k, Unlinked(h, k));
    }
    NodesAre(Act(h, Remove(location)), Step(list, Remove(location)));
  }

  lemma SyncIsStep(h: Heap, s: u16, d: u16)
    requires Good(h)
    ensures Good(Act(h, Sync(s, d))) && Nodes(Act(h, Sync(s, d))) == Step(Nodes(h), Sync(s, d))
  {
    var list := Nodes(h);
    var src, dst := Position(list, s), Position(list, d);
    if src < |list| && dst < |list| {
      assert Stored(h.slots, list, src) && Stored(h.slots, list, dst);
      UpdateAgrees(h.slots, h.head, list, dst, Synced(list[dst].blink, list[src].blink));
    }
    NodesAre(Act(h, Sync(s, d)), Step(list, Sync(s, d)));
  }

  lemma NextTicked(slots: seq<Slot>, list: seq<Entry>, k: nat)
    requires Distinct(list) && k < |list| && list[k].slot < |slots|
    ensures var i := list[k].slot;
      && TickedIn(slots, list[..k])[i] == slots[i]
      && TickedIn(slots, list[..k + 1]) == TickedIn(slots, list[..k])[i := Slot(Ticked(slots[i].blink), slots[i].next)]
  {
    var done, more := list[..k], list[..k + 1];
    forall i: nat ensures InList(more, i) <==> InList(done, i) || i == list[k].slot {
      if m :| 0 <= m < |done| && done[m].slot == i { assert more[m].slot == i; }
      if m :| 0 <= m < |more| && more[m].slot == i { assert m < k ==> done[m].slot == i; }
      assert more[k].slot == list[k].slot;
    }
  }

  /** Every proper operation on memory keeps it good and does to its list what `Step` does. */
  lemma ActIsStep(h: Heap, op: Op)
    requires Good(h) && Proper(op)
    ensures Good(Act(h, op)) && Nodes(Act(h, op)) == Step(Nodes(h), op)
  {
    var list, h' := Nodes(h), Act(h, op);
    match op
    case Add(b) =>
      FullWhenNoneFree(h.slots, h.head, list);
      if b.location < SLOTS && FirstFree(h.slots) < SLOTS {
        NextSlotIsFirstFree(h.slots, h.head, list, 0);
        AddAgrees(h.slots, h.head, list, Started(b));
      }
      NodesAre(h', Step(list, op));
    case Remove(location) => RemoveIsStep(h, location);
    case Sync(s, d) => SyncIsStep(h, s, d);
    case Tick =>
      TickAgrees(h.slots, h.head, list);
      NodesAre(h', Step(list, op));
  }

  /** An add keeps memory good if and only if it fails or its location is not zero. */
  lemma AddKeepsGood(h: Heap, b: Blink)
    requires Good(h)
    ensures Good(Act(h, Add(b))) <==> b.location != 0 || FirstFree(h.slots) == SLOTS
  {
    if b.location != 0 {
      ActIsStep(h, Add(b));
    } else if FirstFree(h.slots) < SLOTS {
      assert !Stored(Act(h, Add(b)).slots, Nodes(Act(h, Add(b))), 0);
    }
  }

  /** An add at a location from 1 to 1999 puts the node, on and with its full countdown, in front of
      the list, in the lowest free slot. */
  lemma AddedInFront(h: Heap, b: Blink)
    requires Good(h) && 1 <= b.location < 2000 && |Nodes(h)| < 2000
    ensures var i := FirstFree(h.slots); var h' := Act(h, Add(b));
      && Good(h') && i < 2000 && h.slots[i].blink.location == 0
      && Nodes(h') == [Entry(i, b.(status := 1, countdown := b.onLength))] + Nodes(h)
  {
    FullWhenNoneFree(h.slots, h.head, Nodes(h));
    NextSlotIsFirstFree(h.slots, h.head, Nodes(h), 0);
    ActIsStep(h, Add(b));
  }

  /** A remove takes the most recent node of its location out of the list, keeps the others in
      their order, and frees the slot. */
  lemma RemovedFromList(h: Heap, location: u16, k: nat)
    requires Good(h) && k < |Nodes(h)| && Nodes(h)[k].blink.location == location
    requires forall m :: 0 <= m < k ==> Nodes(h)[m].blink.location != location
    ensures var h' := Act(h, Remove(location)); var slot := Nodes(h)[k].slot;
      && Good(h') && Nodes(h') == Nodes(h)[..k] + Nodes(h)[k + 1..]
      && slot < |h'.slots| && h'.slots[slot].blink.location == 0
  {
    ActIsStep(h, Remove(location));
    assert Position(Nodes(h), location) == k;
  }

  /** A sync gives the most recent node of one location the lengths, countdown and status of that of
      the other, and changes nothing else of it and no other node. */
  lemma SyncCopies(h: Heap, s: u16, d: u16, j: nat, k: nat)
    requires Good(h) && j < |Nodes(h)| && k < |Nodes(h)|
    requires Nodes(h)[j].blink.location == s && (forall m :: 0 <= m < j ==> Nodes(h)[m].blink.location != s)
    requires Nodes(h)[k].blink.location == d && (forall m :: 0 <= m < k ==> Nodes(h)[m].blink.location != d)
    ensures var list, list' := Nodes(h), Nodes(Act(h, Sync(s, d)));
      && |list'| == |list| && (forall m :: 0 <= m < |list| && m != k ==> list'[m] == list[m])
      && list'[k].slot == list[k].slot && list'[k].blink.location == d
      && list'[k].blink.onChar == list[k].blink.onChar && list'[k].blink.offChar == list[k].blink.offChar
      && list'[k].blink.onLength == list[j].blink.onLength && list'[k].blink.offLength == list[j].blink.offLength
      && list'[k].blink.countdown == list[j].blink.countdown && list'[k].blink.status == list[j].blink.status
  {
    ActIsStep(h, Sync(s, d));
    assert Position(Nodes(h), s) == j && Position(Nodes(h), d) == k;
  }

  // ----- runs

  ghost predicate AllProper(ops: seq<Op>) { forall i :: 0 <= i < |ops| ==> Proper(ops[i]) }

  ghost function Run(h: Heap, ops: seq<Op>): (r: Heap)
    ensures |r.slots| == |h.slots|
    decreases |ops|
  {
    if ops == [] then h else Run(Act(h, ops[0]), ops[1..])
  }

  ghost predicate Untouched(h: Heap, ops: seq<Op>, slot: nat)
    decreases |ops|
  {
    ops != [] ==> !Touches(Nodes(h), ops[0], slot) && Untouched(Act(h, ops[0]), ops[1..], slot)
  }

  /** After any proper operations the list is acyclic, ends in NULL, and its nodes are exactly the
      slots in use. */
  lemma {:induction false} RunStaysGood(h: Heap, ops: seq<Op>)
    requires Good(h) && AllProper(ops)
    ensures Good(Run(h, ops))
    decreases |ops|
  {
    if ops != [] {
      ActIsStep(h, ops[0]);
      RunStaysGood(Act(h, ops[0]), ops[1..]);
    }
  }

  lemma HoldsInSlot(h: Heap, slot: nat, b: Blink)
    requires Good(h)
    ensures Holds(Nodes(h), slot, b) ==> slot < |h.slots| && h.slots[slot].blink == b
    ensures InList(Nodes(h), slot) && h.slots[slot].blink == b ==> Holds(Nodes(h), slot, b)
  {
    var list := Nodes(h);
    forall k: nat | k < |list| && list[k].slot == slot ensures h.slots[slot].blink == list[k].blink {
      assert Stored(h.slots, list, k);
    }
    if k :| 0 <= k < |list| && list[k].slot == slot { HoldsAt(list, k); }
  }

  /** Whatever else is done to the list, a node that is not removed or synced away has been
      ticked exactly once per tick. */
  lemma {:induction false} TickedOncePerTick(h: Heap, ops: seq<Op>, slot: nat, b: Blink)
    requires Good(h) && AllProper(ops) && Holds(Nodes(h), slot, b) && Untouched(h, ops, slot)
    ensures Holds(Nodes(Run(h, ops)), slot, After(b, TickCount(ops)))
    ensures slot < |Run(h, ops).slots| && Run(h, ops).slots[slot].blink == After(b, TickCount(ops))
    decreases |ops|
  {
    if ops == [] {
      HoldsInSlot(h, slot, b);
    } else {
      ActIsStep(h, ops[0]);
      StepHolds(Nodes(h), ops[0], slot, b);
      TickedOncePerTick(Act(h, ops[0]), ops[1..], slot, if ops[0].Tick? then Ticked(b) else b);
    }
  }

  // ----- where location 0 leads

  ghost function Follow(slots: seq<Slot>, at: int, n: nat): int
    decreases n
  {
    if n == 0 || !(0 <= at < |slots|) then at else Follow(slots, slots[at].next, n - 1)
  }

  /** After a node is added at location 0 the next add is given the same slot and links it to
      itself: however far the pointers are followed from the head, NULL is never reached. */
  lemma {:induction false} ZeroLocationMakesCycle(h: Heap, zero: Blink, b: Blink, n: nat)
    requires |h.slots| == SLOTS && FirstFree(h.slots) < SLOTS && zero.location == 0 && b.location < SLOTS
    ensures var h' := Act(Act(h, Add(zero)), Add(b)); h'.head != NULL && Follow(h'.slots, h'.head, n) == h'.head
  {
    var h1 := Act(h, Add(zero));
    var i := FirstFree(h.slots);
    assert h1.slots[i].blink.location == 0 && forall m :: 0 <= m < i ==> h1.slots[m] == h.slots[m];
    assert FirstFree(h1.slots) == i;
    if n > 0 { ZeroLocationMakesCycle(h, zero, b, n - 1); }
  }

  // ----- the phase of one node

  predicate GoodLengths(b: Blink) { 0 < b.onLength < 0x8000 && 0 < b.offLength < 0x8000 }

  /** The node as it must look `p` ticks into its period. */
  function AtPhase(b: Blink, p: nat): Blink
    requires GoodLengths(b) && p < b.onLength as int + b.offLength as int
  {
    if p < b.onLength then b.(status := 1, countdown := b.onLength - p)
    else b.(status := 0, countdown := b.onLength as int + b.offLength as int - p)
  }

  lemma AfterOneMore(b: Blink, n: nat)
    ensures After(b, n + 1) == Ticked(After(b, n))
    decreases n
  {
    if n > 0 { AfterOneMore(Ticked(b), n - 1); }
  }

  lemma PhaseStep(b: Blink, p: nat)
    requires GoodLengths(b) && p < b.onLength as int + b.offLength as int
    ensures Ticked(AtPhase(b, p)) == AtPhase(b, if p + 1 == b.onLength as int + b.offLength as int then 0 else p + 1)
  {}

  lemma NextPhase(n: nat, period: nat)
    requires period > 0
    ensures (n + 1) % period == if n % period + 1 == period then 0 else n % period + 1
  {
    var q, r := n / period, n % period;
    if r + 1 == period {
      assert n + 1 == (q + 1) * period;
      DivModUnique(q + 1, 0, period);
    } else {
      assert n + 1 == q * period + (r + 1);
      DivModUnique(q, r + 1, period);
    }
  }

  /** The position in a period of that length after `n` steps: n mod period. */
  ghost function Turn(period: nat, n: nat): (p: nat)
    requires period > 0
    ensures p < period
  {
    if n == 0 || Turn(period, n - 1) + 1 == period then 0 else Turn(period, n - 1) + 1
  }

  lemma {:induction false} TurnIsMod(period: nat, n: nat)
    requires period > 0
    ensures Turn(period, n) == n % period
    decreases n
  {
    if n == 0 {
      DivModUnique(0, 0, period);
    } else {
      TurnIsMod(period, n - 1);
      NextPhase(n - 1, period);
    }
  }

  lemma {:induction false} PhaseByTurn(b: Blink, n: nat)
    requires GoodLengths(b)
    ensures After(Started(b), n) == AtPhase(b, Turn(b.onLength as int + b.offLength as int, n))
    decreases n
  {
    if n > 0 {
      PhaseByTurn(b, n - 1);
      AfterOneMore(Started(b), n - 1);
      PhaseStep(b, Turn(b.onLength as int + b.offLength as int, n - 1));
    }
  }

  /** `n` ticks after its add a node is on exactly when n mod (on + off) < on, with the
      matching countdown. */
  lemma Phase(b: Blink, n: nat)
    requires GoodLengths(b)
    ensures After(Started(b), n) == AtPhase(b, n % (b.onLength as int + b.offLength as int))
  {
    PhaseByTurn(b, n);
    TurnIsMod(b.onLength as int + b.offLength as int, n);
  }

  /** Over any run after its add, the phase of a node, in the slot it was given, depends on the
      number of ticks only. */
  lemma PhaseOverRun(h: Heap, ops: seq<Op>, b: Blink)
    requires Good(h) && FirstFree(h.slots) < SLOTS && AllProper(ops)
    requires GoodLengths(b) && 0 < b.location < SLOTS
    requires Untouched(Act(h, Add(b)), ops, FirstFree(h.slots))
    ensures Run(Act(h, Add(b)), ops).slots[FirstFree(h.slots)].blink
         == AtPhase(b, TickCount(ops) % (b.onLength as int + b.offLength as int))
  {
    var h1, slot := Act(h, Add(b)), FirstFree(h.slots);
    ActIsStep(h, Add(b));
    NextSlotIsFirstFree(h.slots, h.head, Nodes(h), 0);
    FullWhenNoneFree(h.slots, h.head, Nodes(h));
    assert Nodes(h1)[0] == Entry(slot, Started(b));
    TickedOncePerTick(h1, ops, slot, Started(b));
    Phase(b, TickCount(ops));
  }

  ghost predicate SamePhase(a: Blink, b: Blink) {
    a.onLength == b.onLength && a.offLength == b.offLength && a.countdown == b.countdown && a.status == b.status
  }

  lemma {:induction false} SamePhaseAfter(a: Blink, b: Blink, n: nat)
    requires SamePhase(a, b)
    ensures SamePhase(After(a, n), After(b, n))
    decreases n
  {
    if n > 0 { SamePhaseAfter(Ticked(a), Ticked(b), n - 1); }
  }

  /** Two nodes joined by a sync keep equal status and countdown at every later point of any
      run that neither removes nor re-syncs one of them. */
  lemma SyncedStayTogether(h: Heap, s: u16, d: u16, ops: seq<Op>)
    requires Good(h) && AllProper(ops)
    requires Position(Nodes(h), s) < |Nodes(h)| && Position(Nodes(h), d) < |Nodes(h)|
    requires Untouched(Act(h, Sync(s, d)), ops, Nodes(h)[Position(Nodes(h), s)].slot)
    requires Untouched(Act(h, Sync(s, d)), ops, Nodes(h)[Position(Nodes(h), d)].slot)
    ensures var slots := Run(Act(h, Sync(s, d)), ops).slots;
      var i, j := Nodes(h)[Position(Nodes(h), s)].slot, Nodes(h)[Position(Nodes(h), d)].slot;
      i < |slots| && j < |slots| && SamePhase(slots[i].blink, slots[j].blink)
  {
    var list, h1 := Nodes(h), Act(h, Sync(s, d));
    var src, dst := Position(list, s), Position(list, d);
    ActIsStep(h, Sync(s, d));
    var a, b := Nodes(h1)[src].blink, Nodes(h1)[dst].blink;
    assert Nodes(h1)[src] == Entry(list[src].slot, a) && Nodes(h1)[dst] == Entry(list[dst].slot, b);
    TickedOncePerTick(h1, ops, list[src].slot, a);
    TickedOncePerTick(h1, ops, list[dst].slot, b);
    SamePhaseAfter(a, b, TickCount(ops));
  }

  // ----- the program: blink.S over the arena of fish.c

  class Arena {
    const slots: array<Slot>
    var head: int

    function State(): Heap
      reads this, slots
    {
      Heap(slots[..], head)
    }

    ghost predicate Valid()
      reads this, slots
    {
      Good(State())
    }

    constructor ()
      ensures Valid() && Nodes(State()) == [] && fresh(slots)
    {
      slots := new Slot[SLOTS](_ => FREE);
      head := NULL;
      new;
      NodesAre(State(), []);
    }

    method Malloc() returns (i: int)
      requires slots.Length == SLOTS
      ensures i == if FirstFree(slots[..]) < SLOTS then FirstFree(slots[..]) else NULL
    {
      i := 0;
      while i < SLOTS
        invariant 0 <= i <= SLOTS
        invariant FirstFree(slots[..]) == FirstFree(slots[..], i)
      {
        if slots[i].blink.location == 0 { return; }
        i := i + 1;
      }
      return NULL;
    }

    method FindHelper(location: u16) returns (i: int)
      requires Valid()
      ensures i == SlotAt(Nodes(State()), Position(Nodes(State()), location))
    {
      ghost var k, list := 0, Nodes(State());
      i := head;
      while i != NULL
        invariant k <= |list| && i == SlotAt(list, k)
        invariant Position(list, location) == Position(list, location, k)
        decreases |list| - k
      {
        assert Stored(slots[..], list, k);
        if slots[i].blink.location == location { return; }
        i := slots[i].next;
        k := k + 1;
      }
    }

    /** mp1_ioctl_add.  It fails only on a bad location or a full arena.  `userNext` is the
        pointer field of the caller's structure, copied and then overwritten. */
    method Add(user: Blink, userNext: int) returns (r: int)
      requires Valid()
      modifies this, slots
      ensures r == if user.location >= SLOTS || |old(Nodes(State()))| == SLOTS then -1 else 0
      ensures State() == Act(old(State()), Op.Add(user))
      ensures Valid() <==> r == -1 || user.location != 0
      ensures Valid() ==> Nodes(State()) == Step(old(Nodes(State())), Op.Add(user))
    {
      FullWhenNoneFree(slots[..], head, Nodes(State()));
      AddKeepsGood(State(), user);
      if user.location != 0 { ActIsStep(State(), Op.Add(user)); }
      if user.location >= SLOTS { return -1; }
      var b := user.(status := 1);
      b := b.(countdown := b.onLength);
      var i := Malloc();
      if i == NULL { return -1; }
      slots[i] := Slot(b, userNext);
      slots[i] := slots[i].(next := head);
      assert slots[..] == old(slots[..])[i := Slot(b, head)];
      head := i;
      return 0;
    }

    /** The search for the pointer that leads to `target`, node `k` of the list: NULL stands for
        the list head. */
    method FindPredecessor(target: int, ghost k: nat) returns (prev: int)
      requires Valid() && k < |Nodes(State())| && target == Nodes(State())[k].slot
      ensures prev == if k == 0 then NULL else Nodes(State())[k - 1].slot
    {
      ghost var m, list := 0, Nodes(State());
      prev := NULL;
      var cell := head;
      while cell != target
        invariant 0 <= m <= k && cell == SlotAt(list, m)
        invariant prev == if m == 0 then NULL else SlotAt(list, m - 1)
        decreases k - m
      {
        assert Stored(slots[..], list, m);
        prev := cell;
        cell := slots[cell].next;
        m := m + 1;
      }
      assert m == k;
    }

    /** Node `k` is unlinked and its slot freed. */
    method Unlink(target: int, ghost k: nat)
      requires Valid() && k < |Nodes(State())| && target == Nodes(State())[k].slot
      modifies this, slots
      ensures slots[..] == Unlinked(old(State()), k)[target := FREE]
      ensures head == if k == 0 then old(slots[target].next) else old(head)
    {
      ghost var linked := Unlinked(State(), k);
      var prev := FindPredecessor(target, k);
      if prev == NULL {
        head := slots[target].next;
      } else {
        slots[prev] := slots[prev].(next := slots[target].next);
      }
      assert slots[..] == linked;
      slots[target] := FREE;
    }

    /** mp1_ioctl_remove: the most recent node of that location goes. */
    method Remove(arg: nat) returns (r: int)
      requires Valid()
      modifies this, slots
      ensures Valid()
      ensures r == if Position(old(Nodes(State())), arg % 0x1_0000) < |old(Nodes(State()))| then 0 else -1
      ensures State() == Act(old(State()), Op.Remove(arg % 0x1_0000))
      ensures Nodes(State()) == Step(old(Nodes(State())), Op.Remove(arg % 0x1_0000))
    {
      var location: u16 := arg % 0x1_0000;
      ActIsStep(State(), Op.Remove(location));
      var target := FindHelper(location);
      if target == NULL { return -1; }
      Unlink(target, Position(Nodes(State()), location));
      return 0;
    }

    /** mp1_ioctl_sync: the high half names the node to copy from, the low half the other. */
    method Sync(arg: nat) returns (r: int)
      requires Valid() && arg < 0x1_0000_0000
      modifies slots
      ensures Valid()
      ensures State() == Act(old(State()), Op.Sync(arg / 0x1_0000, arg % 0x1_0000))
      ensures Nodes(State()) == Step(old(Nodes(State())), Op.Sync(arg / 0x1_0000, arg % 0x1_0000))
      ensures var was := old(Nodes(State()));
        r == if Position(was, arg / 0x1_0000) < |was| && Position(was, arg % 0x1_0000) < |was| then 0 else -1
    {
      ActIsStep(State(), Op.Sync(arg / 0x1_0000, arg % 0x1_0000));
      var src := FindHelper(arg / 0x1_0000);
      if src == NULL { return -1; }
      var dst := FindHelper(arg % 0x1_0000);
      if dst == NULL { return -1; }
      var from := slots[src].blink;
      var b := slots[dst].blink.(onLength := from.onLength, offLength := from.offLength);
      b := b.(countdown := from.countdown, status := from.status);
      slots[dst] := slots[dst].(blink := b);
      return 0;
    }

    /** The loop body of mp1_rtc_tasklet. */
    method TickNode(cur: nat)
      requires cur < slots.Length
      modifies slots
      ensures slots[..] == old(slots[..])[cur := Slot(Ticked(old(slots[cur].blink)), old(slots[cur].next))]
    {
      var b := slots[cur].blink;
      b := b.(countdown := (b.countdown + 0xFFFF) % 0x1_0000);
      if !(0 < b.countdown < 0x8000) {
        if b.status % 2 == 1 {
          b := b.(countdown := b.offLength, status := b.status - 1);
        } else {
          b := b.(countdown := b.onLength, status := b.status + 1);
        }
      }
      slots[cur] := slots[cur].(blink := b);
    }

    /** The loop of mp1_rtc_tasklet. */
    method TickAll()
      requires Valid()
      modifies slots
      ensures slots[..] == TickedIn(old(slots[..]), old(Nodes(State())))
    {
      ghost var was, list := slots[..], Nodes(State());
      ghost var k := 0;
      var cur := head;
      while cur != NULL
        invariant 0 <= k <= |list| && cur == SlotAt(list, k)
        invariant slots[..] == TickedIn(was, list[..k])
        decreases |list| - k
      {
        assert Stored(was, list, k);
        NextTicked(was, list, k);
        assert slots[cur] == was[cur];
        TickNode(cur);
        cur := slots[cur].next;
        k := k + 1;
      }
      assert list[..k] == list;
    }

    /** mp1_rtc_tasklet: every node of the list is ticked once. */
    method Tick()
      requires Valid()
      modifies slots
      ensures Valid()
      ensures State() == Act(old(State()), Op.Tick) && Nodes(State()) == Step(old(Nodes(State())), Op.Tick)
    {
      ActIsStep(State(), Op.Tick);
      TickAll();
    }
  }
}
