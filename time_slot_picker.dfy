/**
 * The time-slot picker: the server sends each slot either as a bare time or as an
 * object with a time and a deposit flag. The picker shows an empty notice when there
 * are no slots, and otherwise one button per slot, marked when its time is the
 * selected one and badged when it needs a deposit.
 */
module TimeSlotPicker {
  import opened Values

  datatype Slot = Bare(time: string) | Detailed(slotTime: string, requiresDeposit: bool)

  /** `typeof slot === 'string' ? slot : slot.time`. */
  function TimeOf(s: Slot): string
  {
    match s
    case Bare(t) => t
    case Detailed(t, _) => t
  }

  /** `typeof slot === 'object' ? slot.requiresDeposit : false`. */
  predicate NeedsDeposit(s: Slot)
  {
    s.Detailed? && s.requiresDeposit
  }

  datatype SlotButton = SlotButton(time: string, selected: bool, depositBadge: bool)

  datatype PickerView = NoSlots | Buttons(buttons: seq<SlotButton>)

  /** The picker for a slot list (absent when the server sent none) and the selected
      time (absent before one is chosen). */
  function Picker(slots: Option<seq<Slot>>, selected: Option<string>): (v: PickerView)
    ensures v == NoSlots <==> slots.None? || |slots.value| == 0
    ensures v.Buttons? ==> |v.buttons| == |slots.value|
    ensures v.Buttons? ==> forall k :: 0 <= k < |v.buttons| ==>
      v.buttons[k].time == TimeOf(slots.value[k])
      && (v.buttons[k].selected <==> selected == Some(TimeOf(slots.value[k])))
      && (v.buttons[k].depositBadge <==> NeedsDeposit(slots.value[k]))
  {
    if slots.None? || |slots.value| == 0 then NoSlots
    else
      var ss := slots.value;
      Buttons(seq(|ss|, k requires 0 <= k < |ss| =>
        SlotButton(TimeOf(ss[k]), selected == Some(TimeOf(ss[k])), NeedsDeposit(ss[k]))))
  }

  /** A bare time and an object with the same time and no deposit are drawn alike. */
  lemma BareLikeDetailed(t: string, selected: Option<string>)
    ensures Picker(Some([Bare(t)]), selected) == Picker(Some([Detailed(t, false)]), selected)
  {
  }

  /** Pressing a button selects its time, and when the slot times are distinct that
      button is then the only one marked. */
  lemma PressSelectsOne(slots: seq<Slot>, k: nat)
    requires k < |slots|
    requires forall i, j :: 0 <= i < j < |slots| ==> TimeOf(slots[i]) != TimeOf(slots[j])
    ensures var v := Picker(Some(slots), Some(TimeOf(slots[k])));
      v.Buttons? && v.buttons[k].selected
      && forall j :: 0 <= j < |v.buttons| && v.buttons[j].selected ==> j == k
  {
  }
}
