/**
 * MultipleButtons: the start gate. Each configured button reports its press; a press is
 * accepted only while the buttons are shown and only once per button, and once as many
 * buttons are active as are configured, ButtonsPressed is raised. Hiding clears the
 * presses; showing clears them only when the buttons were hidden.
 */
module Buttons {
  import opened Sequences

  /** A button's identity. */
  type ButtonId = nat

  /** The press count reaches the number of configured buttons only when every one of
      them is active. */
  lemma AllPressedWhenCountReached(active: seq<ButtonId>, buttons: seq<ButtonId>)
    requires Distinct(active) && (forall b :: b in active ==> b in buttons)
    requires |active| >= |buttons|
    ensures forall b :: b in buttons ==> b in active
  {
    DistinctCardinality(active);
    CardinalityAtMostLength(buttons);
    SubsetSameSize(Elements(active), Elements(buttons));
    forall b | b in buttons
      ensures b in active
    {
      assert b in Elements(buttons);
    }
  }

  /** With no button configured twice, pressing every one of them reaches the count. */
  lemma CountReachedWhenAllPressed(active: seq<ButtonId>, buttons: seq<ButtonId>)
    requires Distinct(buttons) && (forall b :: b in buttons ==> b in active)
    requires Distinct(active) && (forall b :: b in active ==> b in buttons)
    ensures |active| == |buttons|
  {
    DistinctCardinality(active);
    DistinctCardinality(buttons);
    assert Elements(active) == Elements(buttons);
  }

  class MultipleButtons {
    /** The configured buttons (`_objectButtons`). */
    const buttons: seq<ButtonId>
    /** `activeStartButtons`, in press order. */
    var active: seq<ButtonId>
    var hidden: bool
    /** How many times ButtonsPressed was raised. */
    var pressedEvents: nat

    /** No button is active twice, and only configured buttons are active. */
    ghost predicate Valid()
      reads this
    {
      Distinct(active) && forall b :: b in active ==> b in buttons
    }

    constructor (buttons: seq<ButtonId>)
      ensures Valid() && this.buttons == buttons
      ensures active == [] && !hidden && pressedEvents == 0
    {
      this.buttons := buttons;
      active := [];
      hidden := false;
      pressedEvents := 0;
    }

    /**
     * ActivateStartButton, called by a configured button when pressed: ignored while
     * hidden or when that button is already active; otherwise the button becomes active
     * and ButtonsPressed is raised once the active count reaches the configured count,
     * which happens only when every configured button is active.
     */
    method ActivateStartButton(b: ButtonId) returns (fired: bool)
      requires Valid() && b in buttons
      modifies this`active, this`pressedEvents
      ensures Valid()
      ensures hidden || b in old(active) ==> active == old(active) && !fired
      ensures !hidden && b !in old(active) ==> active == old(active) + [b] && (fired <==> |active| >= |buttons|)
      ensures pressedEvents == old(pressedEvents) + if fired then 1 else 0
      ensures fired ==> forall x :: x in buttons ==> x in active
    {
      fired := false;
      if hidden || b in active {
        return;
      }
      active := active + [b];
      if |active| >= |buttons| {
        fired := true;
        pressedEvents := pressedEvents + 1;
        AllPressedWhenCountReached(active, buttons);
      }
    }

    /** Show: acts only when hidden, then shows the buttons and clears the presses. */
    method Show()
      modifies this`hidden, this`active
      ensures !hidden
      ensures old(hidden) ==> active == []
      ensures !old(hidden) ==> active == old(active)
    {
      if hidden {
        hidden := false;
        active := [];
      }
    }

    /** Hide: hides the buttons and always clears the presses. */
    method Hide()
      modifies this`hidden, this`active
      ensures hidden && active == []
    {
      if !hidden {
        hidden := true;
      }
      active := [];
    }
  }

  /** Two distinct buttons: the second distinct press raises ButtonsPressed, a repeat does not. */
  method BothButtonsStartTheGame() returns (first: bool, repeat: bool, second: bool)
    ensures !first && !repeat && second
  {
    var gate := new MultipleButtons([1, 2]);
    first := gate.ActivateStartButton(1);
    repeat := gate.ActivateStartButton(1);
    second := gate.ActivateStartButton(2);
  }
}
