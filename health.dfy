/**
 * The player's health: HpManager keeps the current and maximum health and the
 * immortality window that follows damage, and drives UIHpBar, the row of hearts shown
 * on screen (one active flag per heart).
 */
module Health {

  /** Events HpManager raises. */
  datatype HpEvent = OutOfHP | StartImmortality | StopImmortality

  /** The indexer's bounds guard as the source writes it, `index < 0 && index >= length`:
      no index satisfies both, so it never rejects anything. */
  function IndexGuardAsWritten(index: int, length: nat): (rejects: bool)
    ensures !rejects
  {
    index < 0 && index >= length
  }

  /** Concrete inputs the guard lets through although they lie outside a bar of three hearts. */
  lemma IndexGuardAsWrittenLetsOutOfRangeThrough()
    ensures !IndexGuardAsWritten(-1, 3) && !IndexGuardAsWritten(3, 3)
    ensures !(0 <= -1 < 3) && !(0 <= 3 < 3)
  {
  }

  /** The guard the indexer evidently intends (its log message speaks of a non-existing
      index): reject exactly the indices outside the bar. */
  function IndexRejected(index: int, length: nat): (rejects: bool)
    ensures rejects <==> !(0 <= index < length)
  {
    index < 0 || index >= length
  }

  /** The health bar (UIHpBar); the heart objects themselves are reduced to their flags. */
  class UIHpBar {
    /** The active flag of each heart; null while no bar exists. */
    var hearts: array?<bool>

    constructor ()
      ensures hearts == null
    {
      hearts := null;
    }

    /**
     * The indexer setter, with the corrected guard: an index outside the bar is logged
     * and ignored; writing to a removed bar raises a NullReferenceException (`thrown`),
     * which changes nothing; otherwise only the heart at `index` is written.
     */
    method SetActive(index: int, value: bool) returns (thrown: bool)
      modifies hearts
      ensures hearts == old(hearts)
      ensures thrown <==> hearts == null && index >= 0
      ensures hearts != null ==>
                hearts[..] == if 0 <= index < hearts.Length then old(hearts[..])[index := value] else old(hearts[..])
    {
      thrown := false;
      if index < 0 {
        return;
      }
      if hearts == null {
        thrown := true;
        return;
      }
      if IndexRejected(index, hearts.Length) {
        return;
      }
      hearts[index] := value;
    }

    /** RemoveOldBar: drops the bar; a no-op when there is none. */
    method RemoveOldBar()
      modifies this`hearts
      ensures hearts == null
    {
      if hearts != null {
        hearts := null;
      }
    }

    /** CreateNewBar: discards any old bar, then builds `count` hearts, all active. */
    method CreateNewBar(count: nat)
      modifies this`hearts
      ensures hearts != null && fresh(hearts)
      ensures hearts.Length == count
      ensures forall i :: 0 <= i < count ==> hearts[i]
    {
      if hearts != null {
        RemoveOldBar();
      }
      var flags := new bool[count];
      var i := 0;
      while i < count
        invariant 0 <= i <= count
        invariant forall k :: 0 <= k < i ==> flags[k]
      {
        flags[i] := true;
        i := i + 1;
      }
      hearts := flags;
    }
  }

  /** The health manager (HpManager). */
  class HpManager {
    /** The configured number of hearts (`_hpCount`). */
    var maxHp: int
    var currentHp: int
    /** Seconds of immortality left; may dip below zero for one step. */
    var immortalityTime: real
    var isImmortal: bool
    /** Seconds of immortality after damage (`_immortalityAfterDamageTimeSec`, 0 to 10). */
    const immortalityDuration: real
    const bar: UIHpBar
    /** Every event raised, oldest first. */
    var events: seq<HpEvent>

    /**
     * Health stays within [0, max]; while a bar exists it has one heart per health point
     * of the maximum and exactly the first `currentHp` hearts are active; the bar is
     * absent only when health is 0.
     */
    ghost predicate Valid()
      reads this, bar, bar.hearts
    {
      && 0 <= currentHp <= maxHp
      && (bar.hearts == null ==> currentHp == 0)
      && (bar.hearts != null ==>
            && bar.hearts.Length == maxHp
            && forall i :: 0 <= i < maxHp ==> bar.hearts[i] == (i < currentHp))
    }

    /** A fresh manager: health 0, no bar, not immortal. */
    constructor (hpCount: nat, duration: real)
      requires 0.0 <= duration <= 10.0
      ensures Valid() && fresh(bar)
      ensures maxHp == hpCount && currentHp == 0 && bar.hearts == null
      ensures immortalityTime == 0.0 && !isImmortal && immortalityDuration == duration && events == []
    {
      maxHp, currentHp := hpCount, 0;
      immortalityTime, isImmortal, immortalityDuration := 0.0, false, duration;
      bar := new UIHpBar();
      events := [];
    }

    /**
     * What ChangeHP(target) leaves, from health `was`, bar `wasHearts` and event log `log`:
     * an out-of-range target changes nothing; a rise on a removed bar throws and changes
     * nothing; otherwise health becomes the target, and landing on 0 raises OutOfHP and
     * removes the bar.
     */
    ghost predicate ChangeApplied(target: int, was: int, wasHearts: array?<bool>, log: seq<HpEvent>, thrown: bool)
      reads this, bar
    {
      if target > maxHp || target < 0 then
        !thrown && currentHp == was && bar.hearts == wasHearts && events == log
      else if wasHearts == null && target > 0 then
        thrown && currentHp == was && bar.hearts == null && events == log
      else
        && !thrown && currentHp == target
        && (target == 0 ==> bar.hearts == null && events == log + [OutOfHP])
        && (target > 0 ==> bar.hearts == wasHearts && events == log)
    }

    /**
     * ChangeHP: steps health one point at a time towards `newHp`, activating hearts
     * [old, new) on the way up and deactivating [new, old) on the way down; no other heart
     * is written.
     */
    method ChangeHP(newHp: int) returns (thrown: bool)
      requires Valid()
      modifies this`currentHp, this`events, bar`hearts, bar.hearts
      ensures Valid()
      ensures ChangeApplied(newHp, old(currentHp), old(bar.hearts), old(events), thrown)
      ensures 0 <= newHp <= maxHp && bar.hearts != null && bar.hearts == old(bar.hearts) ==>
                forall i :: 0 <= i < maxHp ==>
                  bar.hearts[i] == if old(currentHp) <= i < newHp then true
                                   else if newHp <= i < old(currentHp) then false
                                   else old(bar.hearts[i])
    {
      thrown := false;
      if newHp > maxHp || newHp < 0 {
        return;
      }
      var activeState := newHp > currentHp;
      while currentHp != newHp
        invariant 0 <= currentHp <= maxHp
        invariant bar.hearts == old(bar.hearts) && events == old(events)
        invariant activeState ==> old(currentHp) <= currentHp <= newHp
        invariant !activeState ==> newHp <= currentHp <= old(currentHp)
        invariant bar.hearts == null ==> currentHp == old(currentHp) == 0
        invariant bar.hearts != null ==> forall i :: 0 <= i < maxHp ==> bar.hearts[i] == (i < currentHp)
        decreases if activeState then newHp - currentHp else currentHp - newHp
      {
        currentHp := if activeState then currentHp else currentHp - 1;
        thrown := bar.SetActive(currentHp, activeState);
        if thrown {
          return;
        }
        currentHp := if activeState then currentHp + 1 else currentHp;
      }
      if currentHp == 0 {
        events := events + [OutOfHP];
        bar.RemoveOldBar();
      }
    }

    /** ResetHP: ChangeHP to the maximum, reactivating every heart without resizing. */
    method ResetHP() returns (thrown: bool)
      requires Valid()
      modifies this`currentHp, this`events, bar`hearts, bar.hearts
      ensures Valid()
      ensures ChangeApplied(maxHp, old(currentHp), old(bar.hearts), old(events), thrown)
    {
      thrown := ChangeHP(maxHp);
    }

    /** AddHPToCurrent: ChangeHP to health plus `value`; a target above the maximum is rejected, not clamped. */
    method AddHPToCurrent(value: int) returns (thrown: bool)
      requires Valid()
      modifies this`currentHp, this`events, bar`hearts, bar.hearts
      ensures Valid()
      ensures ChangeApplied(old(currentHp) + value, old(currentHp), old(bar.hearts), old(events), thrown)
    {
      thrown := ChangeHP(currentHp + value);
    }

    /**
     * SubtractHPFromCurrent: ignored entirely while immortality time is left; otherwise
     * immortality starts first (even if the change is then rejected), then ChangeHP to
     * health minus `value`.
     */
    method SubtractHPFromCurrent(value: int) returns (thrown: bool)
      requires Valid()
      modifies this`currentHp, this`events, this`immortalityTime, this`isImmortal, bar`hearts, bar.hearts
      ensures Valid()
      ensures old(immortalityTime) > 0.0 ==>
                && !thrown && currentHp == old(currentHp) && events == old(events)
                && bar.hearts == old(bar.hearts)
                && immortalityTime == old(immortalityTime) && isImmortal == old(isImmortal)
      ensures old(immortalityTime) <= 0.0 ==>
                && isImmortal && immortalityTime == immortalityDuration
                && ChangeApplied(old(currentHp) - value, old(currentHp), old(bar.hearts),
                                 old(events) + [StartImmortality], thrown)
    {
      thrown := false;
      if immortalityTime > 0.0 {
        return;
      }
      var newHp := currentHp - value;
      StartPlayerImmortality();
      thrown := ChangeHP(newHp);
    }

    method StartPlayerImmortality()
      modifies this`immortalityTime, this`isImmortal, this`events
      ensures isImmortal && immortalityTime == immortalityDuration
      ensures events == old(events) + [StartImmortality]
    {
      isImmortal := true;
      immortalityTime := immortalityDuration;
      events := events + [StartImmortality];
    }

    /** StopPlayerImmortality: idempotent; acts and raises StopImmortality only while immortal. */
    method StopPlayerImmortality()
      modifies this`immortalityTime, this`isImmortal, this`events
      ensures !isImmortal
      ensures old(isImmortal) ==> immortalityTime == 0.0 && events == old(events) + [StopImmortality]
      ensures !old(isImmortal) ==> immortalityTime == old(immortalityTime) && events == old(events)
    {
      if isImmortal {
        isImmortal := false;
        immortalityTime := 0.0;
        events := events + [StopImmortality];
      }
    }

    /** Update, once per frame of `deltaTime` seconds: counts the window down while time is
        left, and ends immortality once it has run out. */
    method Update(deltaTime: real)
      modifies this`immortalityTime, this`isImmortal, this`events
      ensures old(immortalityTime) > 0.0 ==>
                immortalityTime == old(immortalityTime) - deltaTime && isImmortal == old(isImmortal) && events == old(events)
      ensures old(immortalityTime) <= 0.0 ==> !isImmortal
      ensures old(immortalityTime) <= 0.0 && old(isImmortal) ==>
                immortalityTime == 0.0 && events == old(events) + [StopImmortality]
      ensures old(immortalityTime) <= 0.0 && !old(isImmortal) ==>
                immortalityTime == old(immortalityTime) && events == old(events)
    {
      if immortalityTime <= 0.0 {
        StopPlayerImmortality();
      } else {
        immortalityTime := immortalityTime - deltaTime;
      }
    }

    /** The HpCount setter as the source writes it: a new count rebuilds the bar; the same
        count calls ResetHP, which throws when the bar was removed at 0 health. */
    method SetHpCountAsWritten(value: int) returns (thrown: bool)
      requires Valid() && value >= 0
      modifies this`maxHp, this`currentHp, this`events, bar`hearts, bar.hearts
      ensures Valid()
      ensures thrown <==> old(maxHp) == value && old(bar.hearts) == null && value > 0
      ensures thrown ==> currentHp == old(currentHp) == 0 && bar.hearts == null && events == old(events)
      ensures !thrown ==> maxHp == value && currentHp == value
      ensures old(maxHp) != value ==> fresh(bar.hearts) && events == old(events)
    {
      thrown := false;
      if maxHp != value {
        maxHp := value;
        currentHp := value;
        bar.CreateNewBar(maxHp);
      } else {
        thrown := ResetHP();
      }
    }

    /**
     * The HpCount setter as evidently intended: a new count, or the same count after the
     * bar was removed, builds a bar of `value` active hearts; otherwise ResetHP refills
     * the existing bar. Either way health ends at the new maximum.
     */
    method SetHpCount(value: int)
      requires Valid() && value >= 0
      modifies this`maxHp, this`currentHp, this`events, bar`hearts, bar.hearts
      ensures Valid()
      ensures maxHp == value && currentHp == value
      ensures value > 0 ==> bar.hearts != null && forall i :: 0 <= i < value ==> bar.hearts[i]
      ensures old(maxHp) != value || (old(bar.hearts) == null && value > 0) ==>
                fresh(bar.hearts) && events == old(events)
      ensures old(maxHp) == value && !(old(bar.hearts) == null && value > 0) ==>
                && (value > 0 ==> bar.hearts == old(bar.hearts) && events == old(events))
                && (value == 0 ==> bar.hearts == null && events == old(events) + [OutOfHP])
    {
      if maxHp != value || (bar.hearts == null && value > 0) {
        maxHp := value;
        currentHp := value;
        bar.CreateNewBar(maxHp);
      } else {
        var thrown := ResetHP();
      }
    }
  }

  /** A game over followed by a restart with the same count, on the setter as written:
      the restart throws and health stays at 0. */
  method RestartAfterGameOverAsWritten() returns (thrown: bool, hpAfter: int)
    ensures thrown && hpAfter == 0
  {
    var hp := new HpManager(0, 3.0);
    var t := hp.SetHpCountAsWritten(3);
    t := hp.SubtractHPFromCurrent(3);
    assert hp.events == [StartImmortality, OutOfHP];
    thrown := hp.SetHpCountAsWritten(3);
    hpAfter := hp.currentHp;
  }

  /** The same sequence on the intended setter: the restart refills health and the bar. */
  method RestartAfterGameOver() returns (hpAfter: int, hearts: seq<bool>)
    ensures hpAfter == 3 && hearts == [true, true, true]
  {
    var hp := new HpManager(0, 3.0);
    hp.SetHpCount(3);
    var t := hp.SubtractHPFromCurrent(3);
    hp.SetHpCount(3);
    hpAfter := hp.currentHp;
    hearts := hp.bar.hearts[..];
  }
}
