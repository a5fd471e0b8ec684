/** The integration test's stand-in device picker, which chooses a button without a user,
    and the exit test of the loop that waits for the download to finish. */
module BigTest {
  import opened Wrappers

  /** A radio button of the picker's group, as the selection rule sees it. */
  datatype Button = Button(checked: bool, enabled: bool)

  /** The buttons of a QButtonGroup, in group order. */
  type ButtonGroup = seq<Button>

  /** A QButtonGroup is exclusive by default: at most one of its buttons is checked. */
  predicate Exclusive(group: ButtonGroup) {
    forall i, j :: 0 <= i < |group| && 0 <= j < |group| && group[i].checked && group[j].checked ==> i == j
  }

  predicate NoneChecked(group: ButtonGroup) {
    forall i :: 0 <= i < |group| ==> !group[i].checked
  }

  predicate NoneEnabled(group: ButtonGroup) {
    forall i :: 0 <= i < |group| ==> !group[i].enabled
  }

  /** QButtonGroup::checkedButton: the position of the checked button, or None. */
  function CheckedButton(group: ButtonGroup): (r: Option<nat>)
    ensures r.Some? ==> r.value < |group| && group[r.value].checked
    ensures r.None? <==> NoneChecked(group)
  {
    if group == [] then None
    else if group[0].checked then Some(0)
    else match CheckedButton(group[1..])
      case Some(i) => Some(i + 1)
      case None => None
  }

  /** MockDevicePicker::selectedButton: the checked button if there is one, otherwise the
      first enabled button in group order, otherwise none. Positions stand for buttons. */
  method SelectedButton(group: ButtonGroup) returns (r: Option<nat>)
    requires Exclusive(group)
    ensures r.Some? ==> r.value < |group|
    ensures forall i :: 0 <= i < |group| && group[i].checked ==> r == Some(i)
    ensures NoneChecked(group) && r.Some? ==>
      group[r.value].enabled && forall j :: 0 <= j < r.value ==> !group[j].enabled
    ensures r.None? <==> NoneChecked(group) && NoneEnabled(group)
  {
    var selected := CheckedButton(group);
    if selected.Some? {
      return selected;
    }
    for i := 0 to |group|
      invariant forall j :: 0 <= j < i ==> !group[j].enabled
    {
      if group[i].enabled {
        return Some(i);
      }
    }
    return None;
  }

  /** `currentId() != 6 || currentId() == 7`: the second disjunct adds nothing, the loop
      stops exactly when the wizard has left page 6. */
  function LeavesPollLoop(currentId: int): (stop: bool)
    ensures stop <==> currentId != 6
  {
    currentId != 6 || currentId == 7
  }
}
