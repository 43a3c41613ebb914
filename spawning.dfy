/**
 * Projectile spawning: ProjectileSpawner keeps one spawn setting per game speed, spawns
 * a weighted random archetype whenever enough time has passed, and tracks every live
 * projectile; each projectile (AbstractProjectile with its DamageBrick, HealingBrick and
 * ScoreBrick kinds) acts once on its first contact with the player and removes itself
 * from the spawner's list when destroyed. Frame time, the random draw and "this step's
 * movement reaches the destination" are inputs.
 */
module Spawning {
  import opened Wrappers
  import Tables
  import opened Sequences

  /** Game speed states, in declaration order. */
  datatype Speed = STOP | SLOW | NORMAL | FAST

  function Ordinal(s: Speed): (n: int)
    ensures 0 <= n < 4
    ensures s == STOP <==> n == 0
  {
    match s
    case STOP => 0
    case SLOW => 1
    case NORMAL => 2
    case FAST => 3
  }

  /** Distinct speeds have distinct positions in the declaration order. */
  lemma OrdinalInjective(a: Speed, b: Speed)
    requires Ordinal(a) == Ordinal(b)
    ensures a == b
  {
  }

  /** The spawn setting for one speed (SpawnerSpeed); `spawnSpeed` is 1 to 300. */
  datatype SpawnerSpeed = SpawnerSpeed(forSpeed: Speed, movementSpeed: real, spawnSpeed: real)

  function SettingKey(s: SpawnerSpeed): int {
    Ordinal(s.forSpeed)
  }

  /** The divider applied to a setting's movement speed. */
  const SpeedDivider: real := 70.0

  /** The projectile kinds and the single call each makes on contact. */
  datatype ProjectileKind =
    | DamageBrick(hpDrain: int)
    | HealingBrick(hpAdded: int)
    | ScoreBrick(scorePoints: int, renderers: nat)

  datatype Effect = DrainHealthPoint(amount: int) | AddHealthPoint(amount: int) | AddScore(points: int)

  function ActionOf(kind: ProjectileKind): Effect {
    match kind
    case DamageBrick(n) => DrainHealthPoint(n)
    case HealingBrick(n) => AddHealthPoint(n)
    case ScoreBrick(points, _) => AddScore(points)
  }

  /** A spawnable archetype (SpawnedProjectile): its kind and its weight (0 to 100). */
  datatype Archetype = Archetype(kind: ProjectileKind, spawnChance: int)

  // ---------------------------------------------------------------- weighted selection

  function Sum(ws: seq<int>): int {
    if |ws| == 0 then 0 else ws[0] + Sum(ws[1..])
  }

  ghost predicate NonNegative(ws: seq<int>) {
    forall i :: 0 <= i < |ws| ==> ws[i] >= 0
  }

  function Weights(archetypes: seq<Archetype>): (ws: seq<int>)
    ensures |ws| == |archetypes|
    ensures forall i :: 0 <= i < |ws| ==> ws[i] == archetypes[i].spawnChance
  {
    seq(|archetypes|, i requires 0 <= i < |archetypes| => archetypes[i].spawnChance)
  }

  lemma {:induction false} SumSplit(ws: seq<int>, k: nat)
    requires k <= |ws|
    ensures Sum(ws) == Sum(ws[..k]) + Sum(ws[k..])
    decreases k
  {
    if k > 0 {
      assert ws[..k][1..] == ws[1..][..k - 1];
      assert ws[k..] == ws[1..][k - 1..];
      SumSplit(ws[1..], k - 1);
    }
  }

  /** Dropping a prefix of non-negative weights never raises the sum. */
  lemma {:induction false} SuffixSumMonotone(ws: seq<int>, a: nat, b: nat)
    requires NonNegative(ws) && a <= b <= |ws|
    ensures Sum(ws[b..]) <= Sum(ws[a..])
    decreases b - a
  {
    if a < b {
      assert ws[a..][1..] == ws[a + 1..];
      SuffixSumMonotone(ws, a + 1, b);
    }
  }

  /**
   * The running-remainder scan from index `i`: the remainder after subtracting weights
   * 0..k is the sum of the weights after k, and the first k at which the draw reaches
   * that remainder is chosen.
   */
  function ChosenFrom(ws: seq<int>, winner: int, i: nat): (r: Option<nat>)
    requires i <= |ws|
    ensures r.Some? ==> i <= r.value < |ws| && winner >= Sum(ws[r.value + 1..])
    ensures winner >= 0 && i < |ws| ==> r.Some?
    decreases |ws| - i
  {
    if i == |ws| then None
    else if winner >= Sum(ws[i + 1..]) then Some(i)
    else ChosenFrom(ws, winner, i + 1)
  }

  function Chosen(ws: seq<int>, winner: int): (r: Option<nat>)
    ensures r.Some? ==> r.value < |ws|
  {
    ChosenFrom(ws, winner, 0)
  }

  /** With a non-empty list, any non-negative draw chooses some archetype. */
  lemma AlwaysChosen(ws: seq<int>, winner: int)
    requires |ws| > 0 && winner >= 0
    ensures Chosen(ws, winner).Some?
  {
  }

  /** The scan chooses k exactly when the draw lies in k's interval of suffix sums
      (with no upper limit for the first index scanned). */
  lemma {:induction false} ChosenFromInterval(ws: seq<int>, winner: int, i: nat, k: nat)
    requires NonNegative(ws) && i <= k < |ws|
    ensures ChosenFrom(ws, winner, i) == Some(k) <==>
              Sum(ws[k + 1..]) <= winner && (k == i || winner < Sum(ws[k..]))
    decreases k - i
  {
    if winner >= Sum(ws[i + 1..]) {
      if k > i {
        SuffixSumMonotone(ws, i + 1, k);
      }
    } else if k > i {
      ChosenFromInterval(ws, winner, i + 1, k);
    }
  }

  /**
   * A draw uniform on [0, total) chooses each archetype with probability proportional to
   * its weight: archetype k is chosen exactly by the ws[k] draws of its interval.
   */
  lemma DrawSelectsByWeight(ws: seq<int>, winner: int, k: nat)
    requires NonNegative(ws) && k < |ws|
    requires 0 <= winner < Sum(ws)
    ensures Chosen(ws, winner) == Some(k) <==> Sum(ws[k + 1..]) <= winner < Sum(ws[k..])
    ensures Sum(ws[k..]) - Sum(ws[k + 1..]) == ws[k]
  {
    ChosenFromInterval(ws, winner, 0, k);
    assert ws[0..] == ws;
    assert ws[k..][1..] == ws[k + 1..];
  }

  /**
   * The draw as written, Random.Range(1, total), excludes both ends; with weights
   * [50, 1] the only draw that chooses the second archetype is 0, so it never spawns.
   */
  lemma AsWrittenDrawStarvesLastArchetype(winner: int)
    requires 1 <= winner < Sum([50, 1])
    ensures Chosen([50, 1], winner) == Some(0)
    ensures Chosen([50, 1], 0) == Some(1)
  {
    assert [50, 1][1..] == [1] && [50, 1][2..] == [];
  }

  // ---------------------------------------------------------------- setting lookup and lists

  /** The first setting for `speed` at or after index i. */
  function SettingFrom(settings: seq<SpawnerSpeed>, speed: Speed, i: nat): (r: Option<SpawnerSpeed>)
    requires i <= |settings|
    ensures r.Some? ==> r.value in settings[i..] && r.value.forSpeed == speed
    ensures r.None? ==> forall j :: i <= j < |settings| ==> settings[j].forSpeed != speed
    decreases |settings| - i
  {
    if i == |settings| then None
    else if settings[i].forSpeed == speed then Some(settings[i])
    else SettingFrom(settings, speed, i + 1)
  }

  /** In a validated list a setting is found exactly when it is the list's entry for that speed. */
  lemma SettingLookupUnique(settings: seq<SpawnerSpeed>, speed: Speed, x: SpawnerSpeed)
    requires Tables.StrictlySortedBy(settings, SettingKey)
    ensures SettingFrom(settings, speed, 0) == Some(x) <==> x in settings && x.forSpeed == speed
  {
    if x in settings && x.forSpeed == speed {
      var r := SettingFrom(settings, speed, 0);
      var j :| 0 <= j < |settings| && settings[j] == x;
      assert r.Some?;
      var k :| 0 <= k < |settings| && settings[k] == r.value;
    }
  }

  // ---------------------------------------------------------------- the objects

  /** A live projectile (AbstractProjectile and its kind). */
  class Projectile {
    const kind: ProjectileKind
    const spawner: ProjectileSpawner
    const movementSpeed: real
    /** `isBrickMove`: still moving and able to act. */
    var isMoving: bool
    /** The position equals the destruction point. */
    var atDestination: bool
    var destroyed: bool
    /** `activeRenderersCount`: fades still running (ScoreBrick). */
    var pendingFades: int

    constructor (kind: ProjectileKind, spawner: ProjectileSpawner, speed: real)
      ensures this.kind == kind && this.spawner == spawner && movementSpeed == speed
      ensures isMoving && !atDestination && !destroyed && pendingFades == 0
    {
      this.kind := kind;
      this.spawner := spawner;
      movementSpeed := speed;
      isMoving := true;
      atDestination := false;
      destroyed := false;
      pendingFades := 0;
    }

    /** Destroy, with OnDestroy's deregistration from the spawner; a second call does nothing. */
    method Destroy()
      requires spawner.Valid()
      modifies this`destroyed, spawner`spawned
      ensures destroyed && spawner.Valid() && this !in spawner.spawned
      ensures old(destroyed) ==> spawner.spawned == old(spawner.spawned)
      ensures !old(destroyed) ==> spawner.spawned == RemoveFirst(old(spawner.spawned), this)
    {
      if !destroyed {
        ghost var before := spawner.spawned;
        RemoveFirstKeepsDistinct(before, this);
        destroyed := true;
        spawner.RemoveProjectileFromSpawnedList(this);
        forall p | p in spawner.spawned
          ensures p.spawner == spawner && !p.destroyed
        {
          assert p in before && p != this;
        }
        assert spawner.LiveValid();
      }
    }

    /** FixedUpdate: moves only while moving, but checks the destination every step. */
    method FixedUpdate(arrives: bool)
      requires spawner.Valid()
      modifies this`atDestination, this`destroyed, spawner`spawned
      ensures atDestination == if old(isMoving) then arrives else old(atDestination)
      ensures destroyed <==> old(destroyed) || atDestination
      ensures spawner.Valid()
      ensures !old(destroyed) && atDestination ==> spawner.spawned == RemoveFirst(old(spawner.spawned), this)
      ensures old(destroyed) || !atDestination ==> spawner.spawned == old(spawner.spawned)
    {
      if isMoving {
        atDestination := arrives;
      }
      if atDestination {
        Destroy();
      }
    }

    /**
     * OnTriggerEnter: the first contact with a body part while moving stops the projectile
     * and performs its action once; a ScoreBrick with renderers then waits for one fade
     * per renderer. Any other contact is ignored.
     */
    method OnContact(isBodyPart: bool) returns (effect: Option<Effect>)
      modifies this`isMoving, this`pendingFades
      ensures isBodyPart && old(isMoving) ==>
                && !isMoving && effect == Some(ActionOf(kind))
                && pendingFades == if kind.ScoreBrick? && kind.renderers > 0 then kind.renderers else old(pendingFades)
      ensures !(isBodyPart && old(isMoving)) ==>
                effect == None && isMoving == old(isMoving) && pendingFades == old(pendingFades)
    {
      effect := None;
      if isBodyPart && isMoving {
        isMoving := false;
        effect := Some(ActionOf(kind));
        if kind.ScoreBrick? && kind.renderers > 0 {
          pendingFades := kind.renderers;
        }
      }
    }

    /** TryToDestroyObject, run as each fade completes: destroys once none is left. */
    method FadeCompleted()
      requires spawner.Valid()
      modifies this`pendingFades, this`destroyed, spawner`spawned
      ensures pendingFades == old(pendingFades) - 1
      ensures destroyed <==> old(destroyed) || pendingFades <= 0
      ensures spawner.Valid()
    {
      pendingFades := pendingFades - 1;
      if pendingFades <= 0 {
        Destroy();
      }
    }
  }

  /** The spawner (ProjectileSpawner). */
  class ProjectileSpawner {
    var settings: seq<SpawnerSpeed>
    const archetypes: seq<Archetype>
    /** `currentSpeed`; None while no setting was ever chosen. */
    var current: Option<SpawnerSpeed>
    var isActive: bool
    var timeAfterSpawn: real
    /** The live projectiles, in spawn order. */
    var spawned: seq<Projectile>

    /**
     * One setting per speed in speed order, each with a positive spawn speed; the current
     * setting comes from the list; the live list has no repetitions and holds only
     * undestroyed projectiles of this spawner.
     */
    ghost predicate Valid()
      reads this`settings, this`current, this`spawned, spawned
    {
      SettingsValid() && LiveValid()
    }

    ghost predicate SettingsValid()
      reads this`settings, this`current
    {
      && Tables.StrictlySortedBy(settings, SettingKey)
      && (forall i :: 0 <= i < |settings| ==> settings[i].spawnSpeed > 0.0)
      && (current.Some? ==> current.value in settings)
    }

    ghost predicate LiveValid()
      reads this`spawned, spawned
    {
      && Distinct(spawned)
      && (forall p :: p in spawned ==> p.spawner == this && !p.destroyed)
    }

    /** Awake and Start: the settings are sorted and de-duplicated, the first becomes current. */
    constructor (speedSettings: seq<SpawnerSpeed>, projectiles: seq<Archetype>)
      requires forall i :: 0 <= i < |speedSettings| ==> speedSettings[i].spawnSpeed >= 1.0
      ensures Valid() && archetypes == projectiles
      ensures multiset(settings) <= multiset(speedSettings)
      ensures forall i :: 0 <= i < |speedSettings| ==> Tables.HasKey(settings, SettingKey, SettingKey(speedSettings[i]))
      ensures current == if |settings| > 0 then Some(settings[0]) else None
      ensures !isActive && timeAfterSpawn == 200.0 && spawned == []
    {
      var validated := Tables.SortAndDedup(speedSettings, SettingKey);
      forall i | 0 <= i < |validated|
        ensures validated[i].spawnSpeed > 0.0
      {
        assert validated[i] in multiset(speedSettings);
      }
      settings := validated;
      archetypes := projectiles;
      current := if |validated| > 0 then Some(validated[0]) else None;
      isActive := false;
      timeAfterSpawn := 200.0;
      spawned := [];
    }

    method StartSpawn()
      modifies this`isActive
      ensures isActive
    {
      isActive := true;
    }

    /**
     * ChangeSpeed: STOP deactivates spawning and keeps the setting; any other speed
     * selects its setting if there is one, and otherwise only logs. Spawning is never
     * re-activated here.
     */
    method ChangeSpeed(speed: Speed)
      requires Valid()
      modifies this`isActive, this`current
      ensures Valid()
      ensures speed == STOP ==> !isActive && current == old(current)
      ensures speed != STOP ==> isActive == old(isActive)
      ensures speed != STOP && SettingFrom(settings, speed, 0).Some? ==> current == SettingFrom(settings, speed, 0)
      ensures speed != STOP && SettingFrom(settings, speed, 0).None? ==> current == old(current)
    {
      if speed == STOP {
        isActive := false;
        return;
      }
      if |settings| == 0 {
        return;
      }
      var i := 0;
      while i < |settings|
        invariant 0 <= i <= |settings|
        invariant SettingFrom(settings, speed, i) == SettingFrom(settings, speed, 0)
        invariant current == old(current)
      {
        if settings[i].forSpeed == speed {
          current := Some(settings[i]);
          return;
        }
        i := i + 1;
      }
    }

    /** RemoveProjectileFromSpawnedList: removes the first occurrence of p. */
    method RemoveProjectileFromSpawnedList(p: Projectile)
      modifies this`spawned
      ensures spawned == RemoveFirst(old(spawned), p)
    {
      spawned := RemoveFirst(spawned, p);
    }

    /** SpawnProjectile: one new projectile, moving at the current setting's speed over 70. */
    method SpawnProjectile(archetype: Archetype) returns (p: Projectile)
      requires Valid() && current.Some?
      modifies this`spawned
      ensures Valid() && fresh(p)
      ensures spawned == old(spawned) + [p]
      ensures p.kind == archetype.kind && p.spawner == this && p.isMoving && !p.destroyed
      ensures p.movementSpeed == current.value.movementSpeed / SpeedDivider
    {
      p := new Projectile(archetype.kind, this, current.value.movementSpeed / SpeedDivider);
      spawned := spawned + [p];
    }

    /**
     * SpawnRandomProjectile with draw `winner`: sums the weights, then scans with a
     * running remainder and spawns the first archetype whose remainder the draw reaches.
     */
    method SpawnRandomProjectile(winner: int) returns (chosen: Option<nat>)
      requires Valid() && current.Some?
      modifies this`spawned
      ensures Valid()
      ensures chosen == Chosen(Weights(archetypes), winner)
      ensures chosen.None? ==> spawned == old(spawned)
      ensures chosen.Some? ==>
                && |spawned| == |old(spawned)| + 1 && spawned[..|old(spawned)|] == old(spawned)
                && fresh(spawned[|old(spawned)|])
                && spawned[|old(spawned)|].kind == archetypes[chosen.value].kind
                && spawned[|old(spawned)|].movementSpeed == current.value.movementSpeed / SpeedDivider
    {
      ghost var ws := Weights(archetypes);
      var total := 0;
      var k := 0;
      while k < |archetypes|
        invariant 0 <= k <= |archetypes|
        invariant total == Sum(ws[..k])
        invariant spawned == old(spawned)
      {
        SumSplit(ws[..k + 1], k);
        assert ws[..k + 1][..k] == ws[..k] && ws[..k + 1][k..] == [ws[k]];
        total := total + archetypes[k].spawnChance;
        k := k + 1;
      }
      assert ws[..|ws|] == ws;
      chosen := None;
      var j := 0;
      while j < |archetypes|
        invariant 0 <= j <= |archetypes|
        invariant total == Sum(ws[j..])
        invariant ChosenFrom(ws, winner, j) == Chosen(ws, winner)
        invariant chosen == None && spawned == old(spawned)
      {
        assert ws[j..][1..] == ws[j + 1..];
        total := total - archetypes[j].spawnChance;
        if winner >= total {
          chosen := Some(j);
          var p := SpawnProjectile(archetypes[j]);
          return;
        }
        j := j + 1;
      }
    }

    /**
     * PreformSpawn, once per frame while active: adds the frame time and spawns once the
     * accumulator reaches 100 / SpawnSpeed, then restarts it. Without a current setting
     * the frame throws after the time was added.
     */
    method PerformSpawn(deltaTime: real, winner: int) returns (thrown: bool, chosen: Option<nat>)
      requires Valid()
      modifies this`timeAfterSpawn, this`spawned
      ensures Valid()
      ensures thrown <==> current.None?
      ensures thrown ==> timeAfterSpawn == old(timeAfterSpawn) + deltaTime && spawned == old(spawned) && chosen == None
      ensures !thrown && old(timeAfterSpawn) + deltaTime < 100.0 / current.value.spawnSpeed ==>
                timeAfterSpawn == old(timeAfterSpawn) + deltaTime && spawned == old(spawned) && chosen == None
      ensures !thrown && old(timeAfterSpawn) + deltaTime >= 100.0 / current.value.spawnSpeed ==>
                && timeAfterSpawn == 0.0 && chosen == Chosen(Weights(archetypes), winner)
                && |spawned| == |old(spawned)| + (if chosen.Some? then 1 else 0)
                && spawned[..|old(spawned)|] == old(spawned)
    {
      chosen := None;
      timeAfterSpawn := timeAfterSpawn + deltaTime;
      thrown := current.None?;
      if thrown {
        return;
      }
      if timeAfterSpawn >= 100.0 / current.value.spawnSpeed {
        chosen := SpawnRandomProjectile(winner);
        timeAfterSpawn := 0.0;
      }
    }

    /** Update: spawns only while active. */
    method Update(deltaTime: real, winner: int) returns (thrown: bool, chosen: Option<nat>)
      requires Valid()
      modifies this`timeAfterSpawn, this`spawned
      ensures Valid()
      ensures !isActive ==> !thrown && chosen == None && timeAfterSpawn == old(timeAfterSpawn) && spawned == old(spawned)
      ensures chosen.Some? ==> isActive && |spawned| == |old(spawned)| + 1
    {
      thrown, chosen := false, None;
      if isActive {
        thrown, chosen := PerformSpawn(deltaTime, winner);
      }
    }

    /** StopSpawnAndDestroyAllObjects: deactivates and destroys every live projectile, last first. */
    method StopSpawnAndDestroyAllObjects()
      requires Valid()
      modifies this`isActive, this`spawned, spawned
      ensures Valid() && !isActive && spawned == []
      ensures forall p :: p in old(spawned) ==> p.destroyed
    {
      isActive := false;
      ghost var all := spawned;
      var i := |spawned| - 1;
      while i >= 0
        invariant -1 <= i < |all|
        invariant Valid() && !isActive
        invariant spawned == all[..i + 1]
        invariant forall k :: i < k < |all| ==> all[k].destroyed
        decreases i
      {
        DestroyLast();
        i := i - 1;
      }
    }

    /** One step of the loop above: Destroy on the last live projectile, which leaves the list. */
    method DestroyLast()
      requires Valid() && |spawned| > 0
      modifies this`spawned, spawned[|spawned| - 1]
      ensures Valid()
      ensures spawned == old(spawned[..|spawned| - 1])
      ensures old(spawned[|spawned| - 1]).destroyed
    {
      var i := |spawned| - 1;
      var p := spawned[i];
      assert p.spawner == this && !p.destroyed;
      DistinctNotBefore(spawned, i);
      RemoveFirstAt(spawned, i);
      assert spawned[..i] + spawned[i + 1..] == spawned[..i];
      p.Destroy();
    }
  }

  /** A projectile acts on its first body-part contact and never again. */
  method ContactActsOnce() returns (first: Option<Effect>, second: Option<Effect>)
    ensures first == Some(AddScore(10)) && second == None
  {
    var spawner := new ProjectileSpawner([], []);
    var p := new Projectile(ScoreBrick(10, 2), spawner, 1.0);
    var ignored := p.OnContact(false);
    first := p.OnContact(true);
    second := p.OnContact(true);
  }

  /** A ScoreBrick with three renderers is destroyed on the third completed fade, not before. */
  method FadeDestroysOnLastCompletion() returns (destroyedAfter: seq<bool>)
    ensures destroyedAfter == [false, false, true]
  {
    var spawner := new ProjectileSpawner([], []);
    var p := new Projectile(ScoreBrick(10, 3), spawner, 1.0);
    var effect := p.OnContact(true);
    p.FadeCompleted();
    destroyedAfter := [p.destroyed];
    p.FadeCompleted();
    destroyedAfter := destroyedAfter + [p.destroyed];
    p.FadeCompleted();
    destroyedAfter := destroyedAfter + [p.destroyed];
  }
}
