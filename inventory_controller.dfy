/** The slot bookkeeping of `InventoryController` in
    src/inventory-controller.js: 24 inventory slots followed by 8 equip
    slots, each holding an item name or nothing. Slots are addressed by
    their position in key order: `inventory-1` ... `inventory-24` are
    0 ... 23 and `inventory-equip-1` ... `inventory-equip-8` are
    24 ... 31. */
module Inventory {
  import opened Wrappers

  const InventorySlots: nat := 24
  const EquipSlots: nat := 8
  const SlotCount: nat := InventorySlots + EquipSlots

  datatype SlotKind = InventorySlot | EquipSlot

  /** One entry of `_inventory`: its `type` and its `value`, an item name
      or `null`. */
  datatype Slot = Slot(kind: SlotKind, value: Option<string>)

  /** The type of the slot at position `i` in key order. */
  function KindAt(i: nat): SlotKind
  {
    if i < InventorySlots then InventorySlot else EquipSlot
  }

  /** The slots have the controller's layout: 32 of them, each of the type
      its position gives it. */
  predicate Layout(s: seq<Slot>)
  {
    |s| == SlotCount && forall i :: 0 <= i < |s| ==> s[i].kind == KindAt(i)
  }

  /** JavaScript's `!value` for a slot value: `null` or the empty name. */
  predicate Empty(v: Option<string>)
  {
    v.None? || v.value == ""
  }

  /** A slot `inventory.add` may fill: an empty inventory slot. */
  predicate Fillable(t: Slot)
  {
    Empty(t.value) && t.kind == InventorySlot
  }

  /** The first fillable slot at or after position `k`. */
  function FirstFillableFrom(s: seq<Slot>, k: nat): (r: Option<nat>)
    requires k <= |s|
    ensures r.Some? ==>
      k <= r.value < |s| && Fillable(s[r.value]) && forall j :: k <= j < r.value ==> !Fillable(s[j])
    ensures r.None? ==> forall j :: k <= j < |s| ==> !Fillable(s[j])
    decreases |s| - k
  {
    if k == |s| then None
    else if Fillable(s[k]) then Some(k)
    else FirstFillableFrom(s, k + 1)
  }

  /** The slot `inventory.add` fills: the first empty inventory slot in
      key order, if there is one. */
  function FirstFillable(s: seq<Slot>): (r: Option<nat>)
    ensures r.Some? ==> r.value < |s| && Fillable(s[r.value]) && forall j :: 0 <= j < r.value ==> !Fillable(s[j])
    ensures r.None? ==> forall j :: 0 <= j < |s| ==> !Fillable(s[j])
  {
    FirstFillableFrom(s, 0)
  }

  /** `inventory.add` never fills an equip slot. */
  lemma AddNeverEquips(s: seq<Slot>)
    requires Layout(s)
    ensures FirstFillable(s).Some? ==> FirstFillable(s).value < InventorySlots
  {
  }

  /** The slots after `_OnItemDropped(a, b)`: the values of `a` and `b`
      exchanged, both types kept. */
  function Swapped(s: seq<Slot>, a: nat, b: nat): (r: seq<Slot>)
    requires a < |s| && b < |s|
    ensures |r| == |s|
    ensures r[a].value == s[b].value && r[b].value == s[a].value
    ensures forall i :: 0 <= i < |s| ==> r[i].kind == s[i].kind
    ensures forall i :: 0 <= i < |s| && i != a && i != b ==> r[i] == s[i]
  {
    var va := s[a].value;
    var vb := s[b].value;
    s[a := s[a].(value := vb)][b := s[b].(value := va)]
  }

  /** Dropping a slot back where it came from undoes the drop, and
      dropping a slot onto itself changes nothing. */
  lemma SwapUndone(s: seq<Slot>, a: nat, b: nat)
    requires a < |s| && b < |s|
    ensures Swapped(Swapped(s, a, b), a, b) == s
    ensures Swapped(s, a, a) == s
  {
    var t := Swapped(Swapped(s, a, b), a, b);
    assert forall i :: 0 <= i < |s| ==> t[i] == s[i];
    assert forall i :: 0 <= i < |s| ==> Swapped(s, a, a)[i] == s[i];
  }

  /** Some slot holds exactly `name`, under JavaScript's `==` on a string
      or `null`. */
  predicate Holds(s: seq<Slot>, name: Option<string>)
  {
    exists i :: 0 <= i < |s| && s[i].value == name
  }

  /** The `inventory.equip` message `_OnItemDropped` broadcasts. */
  datatype EquipNotice = EquipNotice(value: Option<string>, added: bool)

  /** What `GetItemByName` returns: `null`, or the result of
      `FindEntity(name)`. */
  datatype Lookup = NotHeld | FindEntity(name: Option<string>)

  class InventoryController {
    /** `_inventory`, in key order. */
    const slots: array<Slot>

    /** `constructor`: 24 empty inventory slots, then 8 empty equip
        slots. */
    constructor()
      ensures fresh(slots)
      ensures Layout(slots[..])
      ensures forall i :: 0 <= i < slots.Length ==> slots[i].value.None?
    {
      var a := new Slot[SlotCount](_ => Slot(InventorySlot, None));
      var i := 0;
      while i < InventorySlots
        invariant 0 <= i <= InventorySlots
        invariant forall j :: 0 <= j < i ==> a[j] == Slot(InventorySlot, None)
        invariant forall j :: 0 <= j < a.Length ==> a[j].value.None?
      {
        a[i] := Slot(InventorySlot, None);
        i := i + 1;
      }
      i := 0;
      while i < EquipSlots
        invariant 0 <= i <= EquipSlots
        invariant forall j :: 0 <= j < InventorySlots ==> a[j] == Slot(InventorySlot, None)
        invariant forall j :: InventorySlots <= j < InventorySlots + i ==> a[j] == Slot(EquipSlot, None)
        invariant forall j :: 0 <= j < a.Length ==> a[j].value.None?
      {
        a[InventorySlots + i] := Slot(EquipSlot, None);
        i := i + 1;
      }
      slots := a;
    }

    /** `_SetItemAtSlot(slot, itemName)`: store the name; only the value
        is written. */
    method SetItemAtSlot(k: nat, itemName: Option<string>)
      requires k < slots.Length
      modifies slots
      ensures slots[..] == old(slots[..])[k := old(slots[k]).(value := itemName)]
    {
      slots[k] := slots[k].(value := itemName);
    }

    /** `_OnInventoryAdded(msg)`: put `value` into the first empty inventory
        slot in key order and report `added`; when there is none, change
        nothing and leave `added` unset (false here). */
    method OnInventoryAdded(value: Option<string>) returns (added: bool)
      modifies slots
      ensures var f := FirstFillable(old(slots[..]));
        && added == f.Some?
        && slots[..] == if f.Some? then old(slots[..])[f.value := old(slots[f.value]).(value := value)] else old(slots[..])
    {
      added := false;
      var k := 0;
      while k < slots.Length
        invariant 0 <= k <= slots.Length
        invariant slots[..] == old(slots[..])
        invariant FirstFillable(slots[..]) == FirstFillableFrom(slots[..], k)
      {
        if Empty(slots[k].value) && slots[k].kind == InventorySlot {
          SetItemAtSlot(k, value);
          added := true;
          return;
        }
        k := k + 1;
      }
    }

    /** `_OnItemDropped(from, to)`: exchange the values of the dragged
        slot and the target slot; when the target is an equip slot,
        broadcast `inventory.equip` with the dragged slot's former value
        and `added: false`. */
    method OnItemDropped(from: nat, to: nat) returns (notice: Option<EquipNotice>)
      requires from < slots.Length && to < slots.Length
      modifies slots
      ensures slots[..] == Swapped(old(slots[..]), from, to)
      ensures notice == if old(slots[to].kind) == EquipSlot then Some(EquipNotice(old(slots[from].value), false)) else None
    {
      var oldItem := slots[from];
      var newItem := slots[to];
      var oldValue := oldItem.value;
      var newValue := newItem.value;
      SetItemAtSlot(from, newValue);
      SetItemAtSlot(to, oldValue);
      if newItem.kind == EquipSlot {
        notice := Some(EquipNotice(oldValue, false));
      } else {
        notice := None;
      }
    }

    /** `GetItemByName(name)`: look the item up only when some slot holds
        it. */
    method GetItemByName(name: Option<string>) returns (r: Lookup)
      ensures r == if Holds(slots[..], name) then FindEntity(name) else NotHeld
    {
      var k := 0;
      while k < slots.Length
        invariant 0 <= k <= slots.Length
        invariant forall j :: 0 <= j < k ==> slots[j].value != name
      {
        if slots[k].value == name {
          return FindEntity(name);
        }
        k := k + 1;
      }
      return NotHeld;
    }
  }

  /** `inventory.add` changes only the slot it fills, and the slots keep
      their layout; with no fillable slot it changes nothing. */
  lemma AddKeepsLayout(s: seq<Slot>, value: Option<string>)
    requires Layout(s)
    ensures var f := FirstFillable(s);
      f.Some? ==> Layout(s[f.value := s[f.value].(value := value)])
  {
  }

  /** Filling a slot with a non-empty name makes the next `inventory.add`
      go further along: the slot just filled is not chosen again. */
  lemma {:induction false} AddAdvances(s: seq<Slot>, value: string)
    requires value != ""
    ensures var f := FirstFillable(s);
      f.Some? ==>
        var t := s[f.value := s[f.value].(value := Some(value))];
        FirstFillable(t).Some? ==> FirstFillable(t).value > f.value
  {
    var f := FirstFillable(s);
    if f.Some? {
      var t := s[f.value := s[f.value].(value := Some(value))];
      assert !Fillable(t[f.value]);
    }
  }
}
