/**
 * The biofeedback managers: they hold a table of heart-rate thresholds, classify the
 * latest reading into a PulseCondition and raise PulseConditionChange when the held
 * condition changes (AbstractBiofeedbackManager, PulseManager, PulseAccelerationManager).
 */
module Biofeedback {
  import opened Wrappers
  import Tables

  /** Heart-rate states, in declaration order. */
  datatype PulseCondition = SLOW | NORMAL | FAST | CRITICAL

  /** Which biofeedback source a manager stands for (the ACCELERATION member is commented out). */
  datatype BiofeedbackControlType = NONE | HEART_RATE

  /** A colour of the debug bar, kept opaque. */
  type Color = nat

  /**
   * One row of the threshold table: a reading below `rate` selects `condition`.
   * `rate` is the configured float ceiling in hundredths.
   */
  datatype PulseRateCondition = PulseRateCondition(rate: int, condition: PulseCondition, barColor: Color)

  /** The sort key of a row: its ceiling in hundredths, which is what `(int)(Rate * 100)` compares. */
  function RateKey(c: PulseRateCondition): int { c.rate }

  /**
   * ValidateConditionsList: an empty table is logged and left alone; otherwise the table
   * is sorted by ceiling and every row whose ceiling repeats its predecessor's is dropped.
   */
  method ValidateConditionsList(table: seq<PulseRateCondition>) returns (r: seq<PulseRateCondition>)
    ensures |table| == 0 ==> r == table
    ensures |table| > 0 ==> |r| > 0
    ensures Tables.StrictlySortedBy(r, RateKey)
    ensures multiset(r) <= multiset(table)
    ensures forall i :: 0 <= i < |table| ==> Tables.HasKey(r, RateKey, table[i].rate)
  {
    if |table| == 0 {
      r := table;
      return;
    }
    r := Tables.SortAndDedup(table, RateKey);
    assert Tables.HasKey(r, RateKey, RateKey(table[0]));
  }

  /** The reading lies strictly below the row's ceiling (`pulse < Rate`). */
  predicate Below(pulse: int, c: PulseRateCondition) {
    pulse * 100 < c.rate
  }

  /** Index `i` is the row the classifier must pick: the first row whose ceiling is above
      the reading, or the last row when no ceiling is. */
  ghost predicate IsSelection(table: seq<PulseRateCondition>, pulse: int, i: int) {
    && 0 <= i < |table|
    && (forall j :: 0 <= j < i ==> !Below(pulse, table[j]))
    && (Below(pulse, table[i]) || (i == |table| - 1 && !Below(pulse, table[i])))
  }

  /** The scan of RecalculateCondition from row `from` on. */
  function SelectFrom(table: seq<PulseRateCondition>, pulse: int, from: nat): (i: nat)
    requires from < |table|
    ensures from <= i < |table|
    decreases |table| - from
  {
    if Below(pulse, table[from]) || from == |table| - 1 then from
    else SelectFrom(table, pulse, from + 1)
  }

  /** The row PulseManager selects for a reading. */
  function SelectedIndex(table: seq<PulseRateCondition>, pulse: int): (i: nat)
    requires |table| > 0
    ensures i < |table|
  {
    SelectFrom(table, pulse, 0)
  }

  lemma {:induction false} SelectFromSkipsOnlyLowCeilings(table: seq<PulseRateCondition>, pulse: int, from: nat)
    requires from < |table|
    requires forall j :: 0 <= j < from ==> !Below(pulse, table[j])
    ensures IsSelection(table, pulse, SelectFrom(table, pulse, from))
    decreases |table| - from
  {
    if !(Below(pulse, table[from]) || from == |table| - 1) {
      SelectFromSkipsOnlyLowCeilings(table, pulse, from + 1);
    }
  }

  /**
   * The classifier's rule, both ways: SelectedIndex is the first row whose ceiling is
   * strictly above the reading, or the last row if there is none, and no other index is.
   */
  lemma SelectedIndexIsFirstCeilingAbove(table: seq<PulseRateCondition>, pulse: int)
    requires |table| > 0
    ensures forall i :: IsSelection(table, pulse, i) <==> i == SelectedIndex(table, pulse)
  {
    SelectFromSkipsOnlyLowCeilings(table, pulse, 0);
    var s := SelectedIndex(table, pulse);
    forall i | IsSelection(table, pulse, i)
      ensures i == s
    {
    }
  }

  /** The worked example of the design: ceilings 60, 100, 140, 999. A reading equal to a
      ceiling falls into the next row. */
  lemma ClassificationExamples()
    ensures var t := [PulseRateCondition(6000, SLOW, 0), PulseRateCondition(10000, NORMAL, 1),
                      PulseRateCondition(14000, FAST, 2), PulseRateCondition(99900, CRITICAL, 3)];
            && t[SelectedIndex(t, 59)].condition == SLOW
            && t[SelectedIndex(t, 100)].condition == FAST
            && t[SelectedIndex(t, 5000)].condition == CRITICAL
  {
  }

  /** The first row tagged NORMAL at or after `from`, if any. */
  function FirstNormalFrom(table: seq<PulseRateCondition>, from: nat): (r: Option<nat>)
    ensures r.Some? ==> from <= r.value < |table| && table[r.value].condition == NORMAL
    decreases |table| - from
  {
    if from >= |table| then None
    else if table[from].condition == NORMAL then Some(from)
    else FirstNormalFrom(table, from + 1)
  }

  /** FirstNormalFrom finds the first NORMAL row, and reports none only when there is none. */
  lemma {:induction false} FirstNormalFromIsFirst(table: seq<PulseRateCondition>, from: nat)
    ensures FirstNormalFrom(table, from).None? <==>
              forall j :: from <= j < |table| ==> table[j].condition != NORMAL
    ensures FirstNormalFrom(table, from).Some? ==>
              forall j :: from <= j < FirstNormalFrom(table, from).value ==> table[j].condition != NORMAL
    decreases |table| - from
  {
    if from < |table| && table[from].condition != NORMAL {
      FirstNormalFromIsFirst(table, from + 1);
    }
  }

  /** The heart-rate manager (PulseManager). */
  class PulseManager {
    /** The threshold table (validated at start). */
    var conditions: seq<PulseRateCondition>
    /** The last reading that changed the stored value. */
    var pulse: int
    /** The condition currently held. */
    var condition: PulseCondition
    /** The colour last applied to the debug bar. */
    var barColor: Option<Color>
    /** The value last shown on the debug bar. */
    var barValue: Option<int>
    /** Every PulseConditionChange raised, oldest first. */
    var changes: seq<PulseCondition>
    /** The control type Awake assigns. */
    var control: BiofeedbackControlType
    /** How many handlers are attached to PulseConditionChange. */
    var subscribers: nat

    /** The state after the field initialisers and Awake: reading 80, condition NORMAL. */
    constructor (table: seq<PulseRateCondition>)
      ensures conditions == table && pulse == 80 && condition == NORMAL
      ensures barColor == None && barValue == None && changes == []
      ensures control == HEART_RATE && subscribers == 0
    {
      conditions, pulse, condition := table, 80, NORMAL;
      barColor, barValue, changes := None, None, [];
      control, subscribers := HEART_RATE, 0;
    }

    /** Whether the state is what classifying `reading` against the table, starting from
        the condition `was` and the log `log`, leaves behind. */
    ghost predicate ClassifiedFrom(reading: int, was: PulseCondition, log: seq<PulseCondition>, color: Option<Color>)
      reads this
    {
      if |conditions| == 0 then condition == was && changes == log && barColor == color
      else
        var row := conditions[SelectedIndex(conditions, reading)];
        && condition == row.condition
        && barColor == Some(row.barColor)
        && changes == log + (if row.condition != was then [row.condition] else [])
    }

    /** Attaches one handler to PulseConditionChange. */
    method Subscribe()
      modifies this`subscribers
      ensures subscribers == old(subscribers) + 1
    {
      subscribers := subscribers + 1;
    }

    /** Detaches one handler from PulseConditionChange; nothing happens when none is attached. */
    method Unsubscribe()
      modifies this`subscribers
      ensures subscribers == if old(subscribers) > 0 then old(subscribers) - 1 else 0
    {
      if subscribers > 0 {
        subscribers := subscribers - 1;
      }
    }

    /** OnStart: validate the table, then take the reading 0. */
    method OnStart()
      modifies this
      ensures |old(conditions)| == 0 ==> conditions == []
      ensures |old(conditions)| > 0 ==> |conditions| > 0
      ensures Tables.StrictlySortedBy(conditions, RateKey)
      ensures multiset(conditions) <= multiset(old(conditions))
      ensures forall i :: 0 <= i < |old(conditions)| ==> Tables.HasKey(conditions, RateKey, old(conditions)[i].rate)
      ensures pulse == 0
      ensures old(pulse) != 0 ==> barValue == Some(0) && ClassifiedFrom(0, old(condition), old(changes), old(barColor))
      ensures old(pulse) == 0 ==>
                condition == old(condition) && changes == old(changes)
                && barColor == old(barColor) && barValue == old(barValue)
      ensures control == old(control) && subscribers == old(subscribers)
    {
      conditions := ValidateConditionsList(conditions);
      SetPulse(0);
    }

    /** SetPulse: a reading equal to the stored one is ignored; any other is stored,
        classified and shown on the debug bar. */
    method SetPulse(newPulse: int)
      modifies this
      ensures conditions == old(conditions) && control == old(control) && subscribers == old(subscribers)
      ensures newPulse == old(pulse) ==>
                pulse == old(pulse) && condition == old(condition) && changes == old(changes)
                && barColor == old(barColor) && barValue == old(barValue)
      ensures newPulse != old(pulse) ==>
                pulse == newPulse && barValue == Some(newPulse)
                && ClassifiedFrom(newPulse, old(condition), old(changes), old(barColor))
    {
      if newPulse != pulse {
        pulse := newPulse;
        RecalculateCondition();
        barValue := Some(pulse);
      }
    }

    /** RecalculateCondition: an empty table is logged and nothing changes; otherwise the
        first row whose ceiling is above the reading (else the last row) is applied. */
    method RecalculateCondition()
      modifies this`condition, this`barColor, this`changes
      ensures ClassifiedFrom(pulse, old(condition), old(changes), old(barColor))
    {
      if |conditions| == 0 {
        return;
      }
      SelectedIndexIsFirstCeilingAbove(conditions, pulse);
      var i := 0;
      while i < |conditions|
        invariant 0 <= i <= |conditions|
        invariant forall j :: 0 <= j < i ==> !Below(pulse, conditions[j])
        invariant condition == old(condition) && changes == old(changes) && barColor == old(barColor)
      {
        if Below(pulse, conditions[i]) {
          assert IsSelection(conditions, pulse, i);
          SetNewPulseConditionFromList(i);
          return;
        }
        i := i + 1;
      }
      assert IsSelection(conditions, pulse, |conditions| - 1);
      SetNewPulseConditionFromList(|conditions| - 1);
    }

    /** SetNewPulseConditionFromList: the row's colour is always applied; the condition is
        updated and PulseConditionChange raised only when the condition differs. */
    method SetNewPulseConditionFromList(index: nat)
      requires index < |conditions|
      modifies this`condition, this`barColor, this`changes
      ensures barColor == Some(conditions[index].barColor)
      ensures condition == conditions[index].condition
      ensures changes == old(changes) + (if conditions[index].condition != old(condition) then [condition] else [])
    {
      var selected := conditions[index];
      barColor := Some(selected.barColor);
      if condition != selected.condition {
        condition := selected.condition;
        changes := changes + [condition];
      }
    }
  }

  /** The acceleration manager (PulseAccelerationManager), whose classification is a
      placeholder that always picks the first NORMAL row. */
  class PulseAccelerationManager {
    var conditions: seq<PulseRateCondition>
    /** The last acceleration that changed the stored value. */
    var acceleration: real
    var condition: PulseCondition
    var barColor: Option<Color>
    var barValue: Option<real>
    var changes: seq<PulseCondition>
    /** Never assigned (the assignment in Awake is commented out), so it keeps the default. */
    var control: BiofeedbackControlType
    var subscribers: nat

    /** The manager never leaves NORMAL and so never raises PulseConditionChange. */
    ghost predicate Valid()
      reads this
    {
      condition == NORMAL && changes == []
    }

    constructor (table: seq<PulseRateCondition>)
      ensures Valid()
      ensures conditions == table && acceleration == 80.0 && barColor == None && barValue == None
      ensures control == NONE && subscribers == 0
    {
      conditions, acceleration, condition := table, 80.0, NORMAL;
      barColor, barValue, changes := None, None, [];
      control, subscribers := NONE, 0;
    }

    /** Attaches one handler to PulseConditionChange. */
    method Subscribe()
      modifies this`subscribers
      ensures subscribers == old(subscribers) + 1
    {
      subscribers := subscribers + 1;
    }

    /** Detaches one handler from PulseConditionChange; nothing happens when none is attached. */
    method Unsubscribe()
      modifies this`subscribers
      ensures subscribers == if old(subscribers) > 0 then old(subscribers) - 1 else 0
    {
      if subscribers > 0 {
        subscribers := subscribers - 1;
      }
    }

    /** OnStart: validate the table, then take the acceleration 0. */
    method OnStart()
      requires Valid()
      modifies this
      ensures Valid()
      ensures |old(conditions)| == 0 ==> conditions == []
      ensures |old(conditions)| > 0 ==> |conditions| > 0
      ensures Tables.StrictlySortedBy(conditions, RateKey)
      ensures multiset(conditions) <= multiset(old(conditions))
      ensures forall i :: 0 <= i < |old(conditions)| ==> Tables.HasKey(conditions, RateKey, old(conditions)[i].rate)
      ensures acceleration == 0.0
      ensures old(acceleration) == 0.0 ==> barColor == old(barColor) && barValue == old(barValue)
      ensures old(acceleration) != 0.0 ==>
                && barValue == Some(0.0)
                && barColor == (match FirstNormalFrom(conditions, 0)
                                case Some(i) => Some(conditions[i].barColor)
                                case None => old(barColor))
      ensures control == old(control) && subscribers == old(subscribers)
    {
      conditions := ValidateConditionsList(conditions);
      SetAcceleration(0.0);
    }

    /** SetAcceleration: acts only when the value changes; the value itself plays no part
        in the classification. */
    method SetAcceleration(newAcceleration: real)
      requires Valid()
      modifies this
      ensures Valid()
      ensures conditions == old(conditions) && control == old(control) && subscribers == old(subscribers)
      ensures newAcceleration == old(acceleration) ==>
                acceleration == old(acceleration) && barColor == old(barColor) && barValue == old(barValue)
      ensures newAcceleration != old(acceleration) ==>
                && acceleration == newAcceleration && barValue == Some(newAcceleration)
                && barColor == (match FirstNormalFrom(conditions, 0)
                                case Some(i) => Some(conditions[i].barColor)
                                case None => old(barColor))
    {
      if newAcceleration != acceleration {
        acceleration := newAcceleration;
        RecalculateCondition();
        barValue := Some(acceleration);
      }
    }

    /** RecalculateCondition: applies the first row tagged NORMAL; with none (or an empty
        table) nothing changes. */
    method RecalculateCondition()
      modifies this`condition, this`barColor, this`changes
      ensures match FirstNormalFrom(conditions, 0)
              case Some(i) =>
                && barColor == Some(conditions[i].barColor) && condition == NORMAL
                && changes == old(changes) + (if old(condition) != NORMAL then [NORMAL] else [])
              case None =>
                condition == old(condition) && changes == old(changes) && barColor == old(barColor)
    {
      if |conditions| == 0 {
        return;
      }
      FirstNormalFromIsFirst(conditions, 0);
      var i := 0;
      while i < |conditions|
        invariant 0 <= i <= |conditions|
        invariant forall j :: 0 <= j < i ==> conditions[j].condition != NORMAL
        invariant condition == old(condition) && changes == old(changes) && barColor == old(barColor)
      {
        if conditions[i].condition == NORMAL {
          assert FirstNormalFrom(conditions, 0) == Some(i);
          SetNewPulseConditionFromList(i);
          return;
        }
        i := i + 1;
      }
    }

    method SetNewPulseConditionFromList(index: nat)
      requires index < |conditions|
      modifies this`condition, this`barColor, this`changes
      ensures barColor == Some(conditions[index].barColor)
      ensures condition == conditions[index].condition
      ensures changes == old(changes) + (if conditions[index].condition != old(condition) then [condition] else [])
    {
      var selected := conditions[index];
      barColor := Some(selected.barColor);
      if condition != selected.condition {
        condition := selected.condition;
        changes := changes + [condition];
      }
    }
  }
}
