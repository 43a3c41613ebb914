# BricksGame control loop, modelled in Dafny

BricksGame is a Unity game driven by biofeedback. The player stands in front of a
Kinect and touches bricks that fly towards them. A heart-rate sensor on a serial
link reports the player's pulse. The game slows down as the pulse rises and stops at
a critical pulse. This project models the game's control loop and proves properties
of it:

- **PulseReceiver** (`receiver.dfy`). It polls the device, or a placeholder, for the
  heart rate. It parses replies of the form `pulse=<n>`, adds a fixed offset and
  reports the pulse. Once per recalculation period it reports an acceleration.
- **The biofeedback managers** (`biofeedback.dfy`, with the table validation in
  `tables.dfy`):
  - A start-up validation sorts the threshold table by rate and drops repeated rates.
  - `PulseManager` classifies each new pulse by the first rate it lies below, or by
    the last row.
  - `PulseAccelerationManager` always selects the first NORMAL row.
  - Both raise `PulseConditionChange` only when the condition changes.
- **LevelManager** (`level.dfy`). It maps the pulse condition to a game speed:
  - CRITICAL maps to STOP, SLOW to FAST, NORMAL to NORMAL and FAST to SLOW.
  - It passes that speed to every speed-changing component.
  - It runs the pre-start countdown, whose final tick starts the level unless the
    pulse is CRITICAL.
  - It ends the game when health runs out.
  - It applies the bricks' effects to health and score.
- **ProjectileSpawner and the projectiles** (`spawning.dfy`):
  - The spawner keeps one validated setting per speed.
  - It spawns a weighted random archetype whenever enough time has passed.
  - It keeps the list of live projectiles.
  - A projectile acts once, on its first contact with the player, and leaves the
    list when destroyed.
  - A ScoreBrick is destroyed after its last renderer has faded.
- **HpManager and UIHpBar** (`health.dfy`):
  - Health moves one heart at a time.
  - Damage opens an immortality window.
  - Reaching 0 raises `OutOfHP` and removes the bar.
- **AsyncCountDown** (`countdown.dfy`). It is a builder plus an executor. The first
  tick happens at once and every later tick follows a cancellable wait.
- **MultipleButtons** (`buttons.dfy`). It is the start gate: `ButtonsPressed` is
  raised once every configured button has been pressed.

The files `wrappers.dfy` (Option) and `sequences.dfy` (distinct sequences and list
removal) are shared support.

How the model represents the game:

- Events a component raises are logs (`seq`) or counters on the component.
- C# exceptions are a `thrown` out-parameter.
- Frame time, the random draw and "this step's movement reaches the destination" are
  parameters.
- The end of an asynchronous wait is a method call (`DelayElapsed`, `CountdownElapsed`).
- A serial message, or a change of connection, is a method call.
- Threshold rows and spawn settings are value datatypes. In the source they are class
  instances, so `list.Remove(list[i])` removes exactly index i, and the model removes
  index i.

## Model

| member | source | states |
|---|---|---|
| `Tables.Insert` | Assets/ApplicationContent/Scripts/Gameplay/Managers/AbstractBiofeedbackManager.cs:109 | placing an entry into a key-sorted list keeps it sorted and adds exactly that entry (multiset) |
| `Tables.SortByKey` | Assets/ApplicationContent/Scripts/Gameplay/Managers/AbstractBiofeedbackManager.cs:109 | List.Sort with a key comparator: the result is ordered by key and is a permutation of the input; the order of equal keys is left open, as List.Sort is unstable |
| `Tables.RemoveAdjacentDuplicates` | Assets/ApplicationContent/Scripts/Gameplay/Managers/AbstractBiofeedbackManager.cs:113-122 | the backwards removal loop leaves exactly the first entry of every run of equal keys (`Dedup`) |
| `Tables.KeptFromSubMultiset` | Assets/ApplicationContent/Scripts/Gameplay/Managers/AbstractBiofeedbackManager.cs:115-121 | what the removal keeps from an index on is a sub-multiset of the list from that index |
| `Tables.KeptFromStrict` | Assets/ApplicationContent/Scripts/Gameplay/Managers/AbstractBiofeedbackManager.cs:115-121 | on a sorted list the kept entries have strictly increasing keys, all above the key just before |
| `Tables.RunHeadKept` | Assets/ApplicationContent/Scripts/Gameplay/Managers/AbstractBiofeedbackManager.cs:115-121 | an entry whose key differs from its predecessor's is never removed |
| `Tables.DedupNeverAdds` | Assets/ApplicationContent/Scripts/Gameplay/Managers/AbstractBiofeedbackManager.cs:113-122 | de-duplication only removes: its result is a sub-multiset of the input and no longer |
| `Tables.DedupKeepsEveryKey` | Assets/ApplicationContent/Scripts/Gameplay/Managers/AbstractBiofeedbackManager.cs:113-122 | every key of the input still has an entry afterwards |
| `Tables.DedupStrictlySorted` | Assets/ApplicationContent/Scripts/Gameplay/Managers/AbstractBiofeedbackManager.cs:113-122 | after sorting, de-duplication leaves at most one entry per key, in increasing key order |
| `Tables.DedupIdentity` | Assets/ApplicationContent/Scripts/Gameplay/Managers/AbstractBiofeedbackManager.cs:113-122 | a list without adjacent equal keys is left unchanged, so validating twice is validating once |
| `Tables.SortAndDedup` | Assets/ApplicationContent/Scripts/Gameplay/Managers/AbstractBiofeedbackManager.cs:101-111 | the whole validation: strictly increasing keys, only input entries, every input key still present and no new key |
| `Sequences.RemoveFirst` | Assets/ApplicationContent/Scripts/Gameplay/Bricks/ProjectileSpawner.cs:88-91 | List.Remove: an absent item leaves the list as it is; a present one is removed once (length minus one, multiset minus that item) |
| `Sequences.RemoveFirstAt` | Assets/ApplicationContent/Scripts/Gameplay/Bricks/ProjectileSpawner.cs:118-121 | removing the item at index i that does not occur earlier is removal at index i |
| `Sequences.RemoveFirstKeepsDistinct` | Assets/ApplicationContent/Scripts/Gameplay/Bricks/ProjectileSpawner.cs:88-91 | removal keeps a list without repetitions without repetitions and drops the item entirely |
| `Biofeedback.ValidateConditionsList` | Assets/ApplicationContent/Scripts/Gameplay/Managers/AbstractBiofeedbackManager.cs:101-111 | an empty table is left alone; otherwise the table keeps at least one row, has strictly increasing rates, holds only its own rows and keeps a row for every rate |
| `Biofeedback.SelectFrom` | Assets/ApplicationContent/Scripts/Gameplay/Managers/PulseManager.cs:53-63 | the classifier's scan always ends on an index of the table at or after where it started |
| `Biofeedback.SelectFromSkipsOnlyLowCeilings` | Assets/ApplicationContent/Scripts/Gameplay/Managers/PulseManager.cs:53-63 | the scan passes over only rows whose rate the pulse is not below |
| `Biofeedback.SelectedIndexIsFirstCeilingAbove` | Assets/ApplicationContent/Scripts/Gameplay/Managers/PulseManager.cs:45-64 | both ways: the selected row is the first whose rate is strictly above the pulse, or the last row if none is |
| `Biofeedback.ClassificationExamples` | Assets/ApplicationContent/Scripts/Gameplay/Managers/PulseManager.cs:53-63 | with rates 60, 100, 140 and 999, pulse 59 is SLOW, pulse 100 (on a boundary) is FAST and pulse 5000 is CRITICAL |
| `Biofeedback.FirstNormalFrom` | Assets/ApplicationContent/Scripts/Gameplay/Managers/PulseAccelerationManager.cs:54-61 | a row it returns is a NORMAL row of the table |
| `Biofeedback.FirstNormalFromIsFirst` | Assets/ApplicationContent/Scripts/Gameplay/Managers/PulseAccelerationManager.cs:54-61 | it finds the first NORMAL row, and finds none exactly when the table has none |
| `Biofeedback.PulseManager.constructor` | Assets/ApplicationContent/Scripts/Gameplay/Managers/PulseManager.cs:13-18 | starting pulse 80, condition NORMAL, control type HEART_RATE, no change raised |
| `Biofeedback.PulseManager.Subscribe` | Assets/ApplicationContent/Scripts/Gameplay/Managers/LevelManager.cs:45 | attaching a handler to PulseConditionChange adds one handler |
| `Biofeedback.PulseManager.Unsubscribe` | Assets/ApplicationContent/Scripts/Gameplay/Managers/LevelManager.cs:41 | detaching removes one handler, and is harmless when none is attached |
| `Biofeedback.PulseManager.OnStart` | Assets/ApplicationContent/Scripts/Gameplay/Managers/PulseManager.cs:20-25 | validation: an empty table stays empty; otherwise at least one row is kept, rates are strictly increasing, only existing rows are kept and every rate keeps a row. Then pulse 0 is stored. If the old pulse was not 0, it is classified against the validated table. If the old pulse was already 0, condition, events and bar stay the same |
| `Biofeedback.PulseManager.SetPulse` | Assets/ApplicationContent/Scripts/Gameplay/Managers/PulseManager.cs:35-43 | a repeated pulse changes nothing; a new one is stored, shown, and leaves the condition and colour of its selected row, with one change event only if the condition differs |
| `Biofeedback.PulseManager.RecalculateCondition` | Assets/ApplicationContent/Scripts/Gameplay/Managers/PulseManager.cs:45-64 | the scan applies exactly the row `SelectedIndex` picks; an empty table changes nothing |
| `Biofeedback.PulseManager.SetNewPulseConditionFromList` | Assets/ApplicationContent/Scripts/Gameplay/Managers/PulseManager.cs:66-76 | the row's colour is always applied; the condition changes and is raised only when it differs |
| `Biofeedback.PulseAccelerationManager.constructor` | Assets/ApplicationContent/Scripts/Gameplay/Managers/PulseAccelerationManager.cs:13-18 | starting acceleration 80, condition NORMAL, control type left at its default NONE |
| `Biofeedback.PulseAccelerationManager.Subscribe` | Assets/ApplicationContent/Scripts/Gameplay/Managers/LevelManager.cs:45 | attaching a handler adds one handler |
| `Biofeedback.PulseAccelerationManager.Unsubscribe` | Assets/ApplicationContent/Scripts/Gameplay/Managers/LevelManager.cs:41 | detaching removes one handler, harmless when none is attached |
| `Biofeedback.PulseAccelerationManager.OnStart` | Assets/ApplicationContent/Scripts/Gameplay/Managers/PulseAccelerationManager.cs:20-25 | validation as in PulseManager: an empty table stays empty, rates are strictly increasing, only existing rows are kept and every rate keeps a row. The acceleration becomes 0 and the condition stays NORMAL. If the old acceleration was already 0, the bar stays the same. Otherwise the bar shows 0 in the first NORMAL row's colour |
| `Biofeedback.PulseAccelerationManager.SetAcceleration` | Assets/ApplicationContent/Scripts/Gameplay/Managers/PulseAccelerationManager.cs:35-43 | a repeated value changes nothing; a new value is stored and shown and the first NORMAL row's colour is applied; the condition never leaves NORMAL, so no change is ever raised |
| `Biofeedback.PulseAccelerationManager.RecalculateCondition` | Assets/ApplicationContent/Scripts/Gameplay/Managers/PulseAccelerationManager.cs:45-62 | applies the first NORMAL row; with none, or an empty table, nothing changes |
| `Biofeedback.PulseAccelerationManager.SetNewPulseConditionFromList` | Assets/ApplicationContent/Scripts/Gameplay/Managers/PulseAccelerationManager.cs:64-74 | colour always applied; condition changed and raised only when it differs |
| `Health.IndexGuardAsWritten` | Assets/ApplicationContent/Scripts/UI/UIHpBar.cs:27-31 | the guard as written rejects no index at all |
| `Health.IndexGuardAsWrittenLetsOutOfRangeThrough` | Assets/ApplicationContent/Scripts/UI/UIHpBar.cs:27-33 | indices -1 and 3 on a bar of three hearts are outside it, yet pass the guard |
| `Health.IndexRejected` | Assets/ApplicationContent/Scripts/UI/UIHpBar.cs:27-31 | the corrected guard rejects exactly the indices outside the bar |
| `Health.UIHpBar.constructor` | Assets/ApplicationContent/Scripts/UI/UIHpBar.cs:14 | a new bar has no hearts |
| `Health.UIHpBar.SetActive` | Assets/ApplicationContent/Scripts/UI/UIHpBar.cs:23-35 | only the heart at an in-range index is written; other indices are ignored; a removed bar throws for a non-negative index and changes nothing |
| `Health.UIHpBar.RemoveOldBar` | Assets/ApplicationContent/Scripts/UI/UIHpBar.cs:40-51 | afterwards no bar exists, whether or not one existed before |
| `Health.UIHpBar.CreateNewBar` | Assets/ApplicationContent/Scripts/UI/UIHpBar.cs:57-75 | a new bar of exactly `count` hearts, all active |
| `Health.HpManager.constructor` | Assets/ApplicationContent/Scripts/Gameplay/Managers/HpManager.cs:26-33 | the configured count, health 0, no bar, not immortal |
| `Health.HpManager.ChangeHP` | Assets/ApplicationContent/Scripts/Gameplay/Managers/HpManager.cs:119-139 | keeps the health invariant (bar of maximum size, exactly the first `currentHp` hearts active); an out-of-range target changes nothing; otherwise health becomes the target, only the hearts between old and new health are written, and reaching 0 raises OutOfHP and removes the bar |
| `Health.HpManager.ResetHP` | Assets/ApplicationContent/Scripts/Gameplay/Managers/HpManager.cs:71-74 | health returns to the maximum without resizing the bar |
| `Health.HpManager.AddHPToCurrent` | Assets/ApplicationContent/Scripts/Gameplay/Managers/HpManager.cs:80-84 | healing past the maximum is rejected, not clamped; otherwise health rises by the amount |
| `Health.HpManager.SubtractHPFromCurrent` | Assets/ApplicationContent/Scripts/Gameplay/Managers/HpManager.cs:90-100 | ignored during immortality; otherwise immortality starts first (even if the change is then rejected) and health falls by the amount |
| `Health.HpManager.StartPlayerImmortality` | Assets/ApplicationContent/Scripts/Gameplay/Managers/HpManager.cs:102-107 | immortal for the configured duration, StartImmortality raised |
| `Health.HpManager.StopPlayerImmortality` | Assets/ApplicationContent/Scripts/Gameplay/Managers/HpManager.cs:109-117 | idempotent: acts and raises StopImmortality only while immortal |
| `Health.HpManager.Update` | Assets/ApplicationContent/Scripts/Gameplay/Managers/HpManager.cs:56-66 | counts the window down while time is left; once it has run out, immortality ends |
| `Health.HpManager.SetHpCountAsWritten` | Assets/ApplicationContent/Scripts/Gameplay/Managers/HpManager.cs:39-54 | the setter as written throws exactly when the count is unchanged, positive and the bar was removed |
| `Health.HpManager.SetHpCount` | Assets/ApplicationContent/Scripts/Gameplay/Managers/HpManager.cs:39-54 | the corrected setter always ends with health at the new maximum and every heart active |
| `Health.RestartAfterGameOverAsWritten` | Assets/ApplicationContent/Scripts/Gameplay/Managers/HpManager.cs:39-54 | start with 3, lose all health, restart with 3: the setter as written throws and health stays 0 |
| `Health.RestartAfterGameOver` | Assets/ApplicationContent/Scripts/Gameplay/Managers/HpManager.cs:39-54 | the same run on the corrected setter ends with 3 health and three active hearts |
| `Countdown.Milliseconds` | Assets/ApplicationContent/Scripts/Gameplay/SupportScripts/AsyncCountDown.cs:8-15 | every unit is a positive whole number of milliseconds dividing a day; all but MILLISECONDS are whole seconds |
| `Countdown.WaitMilliseconds` | Assets/ApplicationContent/Scripts/Gameplay/SupportScripts/AsyncCountDown.cs:127 | for a non-negative period the wait is never shorter than the period; in MILLISECONDS it equals the period |
| `Countdown.TickKeepsCountdown` | Assets/ApplicationContent/Scripts/Gameplay/SupportScripts/AsyncCountDown.cs:116-121 | a tick moves its value from the values still to come to the values delivered |
| `Countdown.CancelKeepsPrefix` | Assets/ApplicationContent/Scripts/Gameplay/SupportScripts/AsyncCountDown.cs:128 | a cancelled countdown has delivered a prefix of the full countdown |
| `Countdown.TickValuesCountDown` | Assets/ApplicationContent/Scripts/Gameplay/SupportScripts/AsyncCountDown.cs:116-131 | a countdown of n >= 1 delivers exactly n-1, n-2, ..., 0 |
| `Countdown.LastTickIsZero` | Assets/ApplicationContent/Scripts/Gameplay/SupportScripts/AsyncCountDown.cs:123-126 | the last value delivered is 0 |
| `Countdown.CancelToken.constructor` | Assets/ApplicationContent/Scripts/Gameplay/Managers/LevelManager.cs:56 | a new token is not cancelled |
| `Countdown.CancelToken.Cancel` | Assets/ApplicationContent/Scripts/Gameplay/Managers/LevelManager.cs:64 | afterwards the token is cancelled |
| `Countdown.AsyncCountDown.Setup` | Assets/ApplicationContent/Scripts/Gameplay/SupportScripts/AsyncCountDown.cs:32-44 | defaults: count 0, period 1, unit SECONDS, no callback |
| `Countdown.AsyncCountDown.Callback` | Assets/ApplicationContent/Scripts/Gameplay/SupportScripts/AsyncCountDown.cs:53-57 | sets the callback and returns the same builder |
| `Countdown.AsyncCountDown.Count` | Assets/ApplicationContent/Scripts/Gameplay/SupportScripts/AsyncCountDown.cs:61-65 | sets the count and returns the same builder |
| `Countdown.AsyncCountDown.PeriodBetweenCallback` | Assets/ApplicationContent/Scripts/Gameplay/SupportScripts/AsyncCountDown.cs:69-73 | sets the period, keeps the unit, returns the same builder |
| `Countdown.AsyncCountDown.PeriodBetweenCallbackIn` | Assets/ApplicationContent/Scripts/Gameplay/SupportScripts/AsyncCountDown.cs:78-83 | sets period and unit, returns the same builder |
| `Countdown.AsyncCountDown.Start` | Assets/ApplicationContent/Scripts/Gameplay/SupportScripts/AsyncCountDown.cs:88-91 | a new executor with the builder's settings that has already ticked once |
| `Countdown.CountDownExecutor.constructor` | Assets/ApplicationContent/Scripts/Gameplay/SupportScripts/AsyncCountDown.cs:105-114 | copies the settings and ticks at once; a wait follows only if the count is still positive |
| `Countdown.CountDownExecutor.Tick` | Assets/ApplicationContent/Scripts/Gameplay/SupportScripts/AsyncCountDown.cs:116-121 | decrements, delivers the new count to the callback if there is one, and schedules a wait only while the count is positive |
| `Countdown.CountDownExecutor.DelayElapsed` | Assets/ApplicationContent/Scripts/Gameplay/SupportScripts/AsyncCountDown.cs:123-131 | keeps the invariant (delivered values plus those still to come make the whole countdown; a cancelled run has delivered a prefix); cancellation stops without a tick |
| `Countdown.RunUncancelled` | Assets/ApplicationContent/Scripts/Gameplay/SupportScripts/AsyncCountDown.cs:105-131 | left uncancelled, a countdown of n >= 1 delivers n-1 down to 0 and one of n <= 0 delivers only n-1 |
| `Buttons.AllPressedWhenCountReached` | Assets/ApplicationContent/Scripts/Gameplay/StartButton/MultipleButtons.cs:49-52 | once the active count reaches the configured count, every configured button is active |
| `Buttons.CountReachedWhenAllPressed` | Assets/ApplicationContent/Scripts/Gameplay/StartButton/MultipleButtons.cs:49-52 | with no button configured twice, pressing each once reaches the count |
| `Buttons.MultipleButtons.constructor` | Assets/ApplicationContent/Scripts/Gameplay/StartButton/MultipleButtons.cs:22-29 | shown, nothing pressed |
| `Buttons.MultipleButtons.ActivateStartButton` | Assets/ApplicationContent/Scripts/Gameplay/StartButton/MultipleButtons.cs:39-53 | presses while hidden and repeated presses are ignored; otherwise the button becomes active; ButtonsPressed is raised when the count is reached, and only when every button is active |
| `Buttons.MultipleButtons.Show` | Assets/ApplicationContent/Scripts/Gameplay/StartButton/MultipleButtons.cs:58-71 | afterwards shown; presses are cleared only if the buttons were hidden |
| `Buttons.MultipleButtons.Hide` | Assets/ApplicationContent/Scripts/Gameplay/StartButton/MultipleButtons.cs:76-85 | afterwards hidden with presses cleared, whether or not already hidden |
| `Buttons.BothButtonsStartTheGame` | Assets/ApplicationContent/Scripts/Gameplay/StartButton/MultipleButtons.cs:39-53 | with two buttons, the first press and its repeat raise nothing; the second button's press raises ButtonsPressed |
| `Receiver.Wrap32` | Assets/ApplicationContent/Scripts/Biofeedback/PulseReceiver.cs:139 | unchecked 32-bit addition: the result is a 32-bit value congruent to the exact sum, and equal to it when the sum fits |
| `Receiver.RemoveAll` | Assets/ApplicationContent/Scripts/Biofeedback/PulseReceiver.cs:138 | String.Replace with "" never lengthens the text |
| `Receiver.RemoveAllWithoutFirstChar` | Assets/ApplicationContent/Scripts/Biofeedback/PulseReceiver.cs:138 | text without the pattern's first character is untouched |
| `Receiver.PrefixRemoved` | Assets/ApplicationContent/Scripts/Biofeedback/PulseReceiver.cs:136-138 | "pulse=" followed by text without 'p' contains the prefix, and removing the prefix leaves exactly that text |
| `Receiver.RemoveAllWithoutMatch` | Assets/ApplicationContent/Scripts/Biofeedback/PulseReceiver.cs:138 | text not containing the pattern is untouched |
| `Receiver.TrimStart` | Assets/ApplicationContent/Scripts/Biofeedback/PulseReceiver.cs:139 | int.Parse's leading white space: a suffix of the text not starting with white space |
| `Receiver.TrimEnd` | Assets/ApplicationContent/Scripts/Biofeedback/PulseReceiver.cs:139 | trailing white space: a prefix of the text not ending with white space |
| `Receiver.ParseInt32` | Assets/ApplicationContent/Scripts/Biofeedback/PulseReceiver.cs:139 | int.Parse: a parsed value is a 32-bit integer; blank text is a format error |
| `Receiver.DigitChar` | Assets/ApplicationContent/Scripts/Biofeedback/PulseReceiver.cs:115 | a decimal digit character whose value is the digit |
| `Receiver.Digits` | Assets/ApplicationContent/Scripts/Biofeedback/PulseReceiver.cs:115 | a non-empty run of decimal digits |
| `Receiver.FormatInt` | Assets/ApplicationContent/Scripts/Biofeedback/PulseReceiver.cs:115 | int.ToString: non-empty, digits with an optional leading minus |
| `Receiver.DigitsValueOfDigits` | Assets/ApplicationContent/Scripts/Biofeedback/PulseReceiver.cs:115-117 | the digits of n read back as n |
| `Receiver.ParseFormatRoundTrip` | Assets/ApplicationContent/Scripts/Biofeedback/PulseReceiver.cs:115-117 | int.Parse(n.ToString()) == n for every 32-bit n |
| `Receiver.PulseFromMessage` | Assets/ApplicationContent/Scripts/Biofeedback/PulseReceiver.cs:134-145 | both ways: no pulse exactly when the message is missing or lacks the prefix; a pulse exactly when the rest parses; a pulse is a 32-bit value |
| `Receiver.WellFormedReplyReportsValue` | Assets/ApplicationContent/Scripts/Biofeedback/PulseReceiver.cs:134-145 | the reply "pulse=" + n reports n plus the offset, wrapped to 32 bits |
| `Receiver.Acceleration` | Assets/ApplicationContent/Scripts/Biofeedback/PulseReceiver.cs:155-156 | the acceleration has the sign of the wrapped pulse change: positive, zero or negative together |
| `Receiver.PulseReceiver.constructor` | Assets/ApplicationContent/Scripts/Biofeedback/PulseReceiver.cs:53-60 | disconnected, cycle and anchor 0, nothing reported or sent |
| `Receiver.PulseReceiver.CalculateAcceleration` | Assets/ApplicationContent/Scripts/Biofeedback/PulseReceiver.cs:147-162 | the cycle advances modulo the period; on the period-th call the acceleration since the anchor is reported and the pulse becomes the anchor |
| `Receiver.PulseReceiver.CreatePlaceholderAcceleration` | Assets/ApplicationContent/Scripts/Biofeedback/PulseReceiver.cs:164-172 | the same cycle, reporting the fixed placeholder value on each period-th call |
| `Receiver.PulseReceiver.GetMessageFromSerial` | Assets/ApplicationContent/Scripts/Biofeedback/PulseReceiver.cs:104-111 | throws exactly when the number after the prefix does not parse, and then changes nothing; otherwise reports the pulse, if there is one, and feeds it (or 0) to the acceleration cycle |
| `Receiver.PulseReceiver.GetBiofeedbackFromPlaceholder` | Assets/ApplicationContent/Scripts/Biofeedback/PulseReceiver.cs:113-119 | reports the placeholder pulse plus the offset (the formatted message always parses) and runs the placeholder acceleration cycle |
| `Receiver.PulseReceiver.SendMessageToSerialController` | Assets/ApplicationContent/Scripts/Biofeedback/PulseReceiver.cs:122-132 | while disconnected, reports -1 first; the request "1" is sent either way |
| `Receiver.PulseReceiver.SetConnectionWithSerial` | Assets/ApplicationContent/Scripts/Biofeedback/PulseReceiver.cs:89-102 | records the connection state; connecting sends one request at once |
| `Receiver.PulseReceiver.FixedUpdate` | Assets/ApplicationContent/Scripts/Biofeedback/PulseReceiver.cs:62-78 | polls exactly when the accumulated time strictly exceeds the polling rate, then restarts the accumulator. A placeholder poll reports the placeholder pulse plus the offset and advances the cycle. On the period-th poll it also raises the placeholder acceleration. A device poll sends a request, and reports -1 while disconnected. Without a poll, only time accumulates. Accelerations change only on a placeholder poll |
| `Spawning.Ordinal` | Assets/ApplicationContent/Scripts/Gameplay/Managers/AbstractSpeedChangingComponent.cs:8-14 | the speeds' declaration positions 0 to 3, STOP alone at 0 |
| `Spawning.OrdinalInjective` | Assets/ApplicationContent/Scripts/Gameplay/Bricks/ProjectileSpawner.cs:95 | the sort comparator's key tells speeds apart |
| `Spawning.SumSplit` | Assets/ApplicationContent/Scripts/Gameplay/Bricks/ProjectileSpawner.cs:136-141 | the total of the weights splits at any index |
| `Spawning.SuffixSumMonotone` | Assets/ApplicationContent/Scripts/Gameplay/Bricks/ProjectileSpawner.cs:144-147 | with non-negative weights the running remainder never rises |
| `Spawning.ChosenFrom` | Assets/ApplicationContent/Scripts/Gameplay/Bricks/ProjectileSpawner.cs:144-152 | the scan picks an index whose remainder the draw reaches, and always picks one for a non-negative draw |
| `Spawning.Chosen` | Assets/ApplicationContent/Scripts/Gameplay/Bricks/ProjectileSpawner.cs:143-152 | a chosen index is an index of the archetype list |
| `Spawning.AlwaysChosen` | Assets/ApplicationContent/Scripts/Gameplay/Bricks/ProjectileSpawner.cs:144-152 | with archetypes present, any non-negative draw spawns something |
| `Spawning.ChosenFromInterval` | Assets/ApplicationContent/Scripts/Gameplay/Bricks/ProjectileSpawner.cs:144-152 | both ways: the scan picks k exactly when the draw lies in k's interval of remainders |
| `Spawning.DrawSelectsByWeight` | Assets/ApplicationContent/Scripts/Gameplay/Bricks/ProjectileSpawner.cs:134-153 | on draws in [0, total) each archetype is chosen by exactly as many draws as its weight |
| `Spawning.AsWrittenDrawStarvesLastArchetype` | Assets/ApplicationContent/Scripts/Gameplay/Bricks/ProjectileSpawner.cs:143-151 | weights [50, 1]: only draw 0 chooses the second archetype, and Random.Range(1, 51) never returns 0 |
| `Spawning.SettingFrom` | Assets/ApplicationContent/Scripts/Gameplay/Bricks/ProjectileSpawner.cs:194-201 | a found setting is in the list and is for that speed; none is found only when the list has none |
| `Spawning.SettingLookupUnique` | Assets/ApplicationContent/Scripts/Gameplay/Bricks/ProjectileSpawner.cs:93-108 | in a validated list, the lookup returns a setting exactly when it is the list's entry for that speed |
| `Spawning.Projectile.constructor` | Assets/ApplicationContent/Scripts/Gameplay/Bricks/AbstractProjectile.cs:60-63 | a new projectile moves, has not arrived and is not destroyed |
| `Spawning.Projectile.Destroy` | Assets/ApplicationContent/Scripts/Gameplay/Bricks/AbstractProjectile.cs:84-87 | destruction removes the projectile from its spawner's list once; the spawner's invariant is kept |
| `Spawning.Projectile.FixedUpdate` | Assets/ApplicationContent/Scripts/Gameplay/Bricks/AbstractProjectile.cs:65-73 | moves only while moving, but reaching the destination destroys it even after it stopped |
| `Spawning.Projectile.OnContact` | Assets/ApplicationContent/Scripts/Gameplay/Bricks/AbstractProjectile.cs:75-82 | the first body-part contact while moving stops it and performs its action once; a ScoreBrick with renderers then waits for one fade per renderer; any other contact is ignored |
| `Spawning.Projectile.FadeCompleted` | Assets/ApplicationContent/Scripts/Gameplay/Bricks/ScoreBrick.cs:48-55 | one fade fewer is pending; the brick is destroyed once none is left |
| `Spawning.ProjectileSpawner.constructor` | Assets/ApplicationContent/Scripts/Gameplay/Bricks/ProjectileSpawner.cs:48-68 | the settings are validated (one per speed, in speed order, none lost); the first becomes current; inactive, timer 200, no projectiles |
| `Spawning.ProjectileSpawner.StartSpawn` | Assets/ApplicationContent/Scripts/Gameplay/Bricks/ProjectileSpawner.cs:110-113 | spawning becomes active |
| `Spawning.ProjectileSpawner.ChangeSpeed` | Assets/ApplicationContent/Scripts/Gameplay/Bricks/ProjectileSpawner.cs:180-204 | STOP deactivates and keeps the setting; another speed selects its setting if the list has one, and never re-activates spawning |
| `Spawning.ProjectileSpawner.RemoveProjectileFromSpawnedList` | Assets/ApplicationContent/Scripts/Gameplay/Bricks/ProjectileSpawner.cs:88-91 | List.Remove on the live list |
| `Spawning.ProjectileSpawner.SpawnProjectile` | Assets/ApplicationContent/Scripts/Gameplay/Bricks/ProjectileSpawner.cs:155-174 | appends one new moving projectile of the archetype's kind, at the current setting's movement speed divided by 70 |
| `Spawning.ProjectileSpawner.SpawnRandomProjectile` | Assets/ApplicationContent/Scripts/Gameplay/Bricks/ProjectileSpawner.cs:134-153 | the two loops spawn exactly the archetype `Chosen` picks for the draw, or nothing |
| `Spawning.ProjectileSpawner.PerformSpawn` | Assets/ApplicationContent/Scripts/Gameplay/Bricks/ProjectileSpawner.cs:124-132 | time accumulates; at 100 / SpawnSpeed one draw is spawned and the timer restarts; without a current setting the frame throws |
| `Spawning.ProjectileSpawner.Update` | Assets/ApplicationContent/Scripts/Gameplay/Bricks/ProjectileSpawner.cs:70-76 | an inactive spawner does nothing; a spawn happens only while active |
| `Spawning.ProjectileSpawner.StopSpawnAndDestroyAllObjects` | Assets/ApplicationContent/Scripts/Gameplay/Bricks/ProjectileSpawner.cs:115-122 | deactivates, destroys every live projectile and leaves the list empty |
| `Spawning.ProjectileSpawner.DestroyLast` | Assets/ApplicationContent/Scripts/Gameplay/Bricks/ProjectileSpawner.cs:118-121 | one step of that loop: the last live projectile is destroyed and leaves the end of the list |
| `Spawning.ContactActsOnce` | Assets/ApplicationContent/Scripts/Gameplay/Bricks/AbstractProjectile.cs:75-82 | a ScoreBrick of 10 points scores 10 on its first contact and nothing on the second |
| `Spawning.FadeDestroysOnLastCompletion` | Assets/ApplicationContent/Scripts/Gameplay/Bricks/ScoreBrick.cs:32-55 | with three renderers, the brick is destroyed on the third completed fade and not before |
| `Level.SpeedFor` | Assets/ApplicationContent/Scripts/Gameplay/Managers/LevelManager.cs:152-169 | STOP exactly for CRITICAL; otherwise the speed mirrors the condition (SLOW to FAST, NORMAL to NORMAL, FAST to SLOW) |
| `Level.SpeedForInjective` | Assets/ApplicationContent/Scripts/Gameplay/Managers/LevelManager.cs:152-169 | distinct conditions give distinct speeds |
| `Level.SpeedFallsAsPulseRises` | Assets/ApplicationContent/Scripts/Gameplay/Managers/LevelManager.cs:152-169 | a higher pulse condition never gives a faster game |
| `Level.CountdownStartsLevelOnce` | Assets/ApplicationContent/Scripts/Gameplay/Managers/LevelManager.cs:74-91 | the countdown of wait + 1 ticks carries 0 exactly once, at its end, so it starts the level once |
| `Level.LevelManager.constructor` | Assets/ApplicationContent/Scripts/Gameplay/Managers/LevelManager.cs:49-58 | score 0, empty notification, a fresh uncancelled timer token, no manager, nothing raised |
| `Level.LevelManager.SetBiofeedbackManager` | Assets/ApplicationContent/Scripts/Gameplay/Managers/LevelManager.cs:35-47 | detaches from the old manager, attaches to the new one; a null manager throws after the detach |
| `Level.LevelManager.ChangeGameSpeed` | Assets/ApplicationContent/Scripts/Gameplay/Managers/LevelManager.cs:171-177 | every component ends as one ChangeSpeed call leaves it, even when listed twice, and keeps its invariant |
| `Level.LevelManager.ChangeGameSpeedAccordingToPulse` | Assets/ApplicationContent/Scripts/Gameplay/Managers/LevelManager.cs:152-169 | every component receives the condition's speed |
| `Level.LevelManager.StartLevel` | Assets/ApplicationContent/Scripts/Gameplay/Managers/LevelManager.cs:93-108 | hides the buttons; CRITICAL rejects the start and shows them again with health and score untouched; otherwise health is the configured count, the score 0 and GameStarted is raised once |
| `Level.LevelManager.CountDownBeforeStart` | Assets/ApplicationContent/Scripts/Gameplay/Managers/LevelManager.cs:83-91 | a non-zero count is only shown; 0 clears the text and starts the level |
| `Level.LevelManager.StartGame` | Assets/ApplicationContent/Scripts/Gameplay/Managers/LevelManager.cs:74-81 | begins a new countdown of wait + 1 one-second ticks on the timer token, and handles its first value (wait) at once. With wait > 0 the value is shown, and events, score and health stay the same. With wait 0 the level starts at once: unless the pulse is CRITICAL, GameStarted is raised, health is reset to the configured count and the score to 0. With CRITICAL nothing starts and the buttons are shown again |
| `Level.LevelManager.CountdownElapsed` | Assets/ApplicationContent/Scripts/Gameplay/Managers/LevelManager.cs:83-91 | a cancelled countdown changes nothing. Otherwise the countdown ticks. A value other than 0 is shown, and events, score and health stay the same. The value 0 clears the text. Then, unless the pulse is CRITICAL, GameStarted is raised, health is reset to the configured count and the score to 0. With CRITICAL nothing starts and the buttons are shown again |
| `Level.LevelManager.EndGame` | Assets/ApplicationContent/Scripts/Gameplay/Managers/LevelManager.cs:113-119 | clears the started flag, raises GameEnded and shows the buttons |
| `Level.LevelManager.PressStartButton` | Assets/ApplicationContent/Scripts/Gameplay/Managers/LevelManager.cs:55 | a countdown starts exactly when the press raises ButtonsPressed |
| `Level.LevelManager.DrainHealthPoint` | Assets/ApplicationContent/Scripts/Gameplay/Managers/LevelManager.cs:125-128 | damage is ignored during immortality. Otherwise immortality starts at once. A drain that would leave health below 0 (or above the maximum) is rejected: health stays the same and the game does not end. An accepted drain lowers health, and reaching 0 ends the game |
| `Level.LevelManager.AddHealthPoint` | Assets/ApplicationContent/Scripts/Gameplay/Managers/LevelManager.cs:143-146 | healing past the maximum changes nothing; otherwise health rises (landing on 0 ends the game) |
| `Level.LevelManager.AddScore` | Assets/ApplicationContent/Scripts/Gameplay/Managers/LevelManager.cs:134-137 | the score grows by the points |
| `Level.LevelManager.OnDestroy` | Assets/ApplicationContent/Scripts/Gameplay/Managers/LevelManager.cs:60-69 | cancels the timer, so no pending countdown ticks again, and detaches from the manager |

## Left out

- Floating point. Time, speeds and accelerations are `real`. Threshold rates are
  whole hundredths. The model compares `pulse * 100 < rate`. It sorts by that same
  integer. The source's comparator is `(int)(prc1.Rate * 100 - prc2.Rate * 100)`. It
  truncates the difference, so two rates closer than 0.01 compare equal. The model
  compares whole hundredths and does not model that case. It also does not model the
  float duplicate test `Rate == Rate` disagreeing with the comparator for such rates.
- Receiver.ParseInt32 covers only int.Parse's default style with ASCII signs and digits. It leaves out culture-specific signs, digits and white space.
- Countdown.CountDownExecutor.DelayElapsed does not model Task.Delay rejecting a wait below -1 ms. For a negative period the source's countdown dies after its first tick, while the model keeps ticking. LevelManager only ever passes a period of 1 second.
- Countdown.CountDownExecutor.Tick does not model the 64-bit `long` count wrapping. It would wrap only when decrementing the smallest long.
- Health.HpManager.AddHPToCurrent does not model 32-bit wrap-around of `currentHP + value`. Health.HpManager.SubtractHPFromCurrent does not model it for `currentHP - value`. Both need an amount near the int range.
- Spawning.Projectile.Destroy removes the projectile at once. Unity defers `Destroy` to the end of the frame and runs `OnDestroy` then. The model also makes a second call do nothing.
- Spawning.Projectile.FadeCompleted states that the brick is destroyed, but not how the spawner's list changes. `Destroy`'s own contract covers that.
- Spawning.ProjectileSpawner.Update states only the inactive case and that a spawn needs an active spawner. The active case is PerformSpawn's contract.
- Spawning.ProjectileSpawner.SpawnProjectile does not model the choice of a movement path, positions or rotations. Spawning from an archetype with no movement points throws in the source, and the model does not model that throw.
- Bricks' actions are reduced to the effect a brick asks the level for. The effects are draining health, adding health and adding score. Timers, forces and animations of DamageBrick, HealingBrick and ScoreBrick are not modelled; only ScoreBrick's fade count is.
- Level.LevelManager.PressStartButton states only whether a countdown started. StartGame's contract covers the rest.
- Level.LevelManager.DrainHealthPoint leaves out the case where the bar was removed and the target is positive. Level.LevelManager.AddHealthPoint leaves out the same case. The source throws there; see Health.HpManager.ChangeHP.
- Level.LevelManager.StartLevel uses the corrected Health.HpManager.SetHpCount, not the setter as written. See the findings.
- Event wiring:
  - The model wires OutOfHP to EndGame (inside DrainHealthPoint and AddHealthPoint) and ButtonsPressed to StartGame (PressStartButton).
  - Every other event is a log or a counter on the object that raises it:
    - PulseReceived and AccelerationCalculated are passed on to the managers by their caller.
    - PulseConditionChange has only its handler count modelled.
    - GameStarted and GameEnded do not reach the spawner by themselves; call StartSpawn and StopSpawnAndDestroyAllObjects.
  - `ChangeGameSpeedAccordingToPulse` does nothing for a value outside its four cases. No such value exists among the four conditions, so that path is not modelled.
- UI output is reduced to values:
  - the debug bar's colour and value;
  - the notification text;
  - the score bar;
  - the hearts' active flags.

  Layout, sprites and DOTween animations are left out: heart positions, the buttons' scaling and movement, and the bricks' fading. `UIHealthPoint` is not part of this model beyond its flag.
- The serial transport and `EventMessageListener` are not part of this model; messages and connection changes arrive as calls. Neither is the Kinect body tracking, the keyboard player, `ControllerManager` or `CustomLogger`. Logging is dropped.
- `StartGameButton` exists only in the Unity editor and is not modelled.
- The asynchronous wait is not modelled as time. The scheduler's end of a wait is the call `DelayElapsed`, and `Task.Delay`'s exception on cancellation is the `aborted` flag.

## Findings

| source | as written | input that shows it | evidently intended | confidence | as-written member | corrected member |
|---|---|---|---|---|---|---|
| Assets/ApplicationContent/Scripts/UI/UIHpBar.cs:27 | the guard `index < 0 && index >= hpImagesArray.Length` can never hold, so no index is rejected | index 3, or index -1, on a bar of three hearts passes the guard and indexes outside the array | `index < 0 \|\| index >= hpImagesArray.Length`: log and ignore an out-of-range index | high; not executed | `Health.IndexGuardAsWritten` (with `Health.IndexGuardAsWrittenLetsOutOfRangeThrough`) | `Health.IndexRejected`, used by `Health.UIHpBar.SetActive` |
| Assets/ApplicationContent/Scripts/Gameplay/Managers/HpManager.cs:43-52 | setting `HpCount` to the count it already has calls `ResetHP`, which writes hearts of the bar; but `ChangeHP` removed the bar when health reached 0 | start with count 3, take 3 damage (OutOfHP removes the bar), start again with count 3: `ResetHP` → `ChangeHP(3)` → `_hpBar[0] = true` on a null array, a NullReferenceException; health stays 0 and the level never starts. The first start fails the same way when LevelManager's count equals HpManager's configured count | rebuild the bar whenever none exists, so every start ends with full health and a full bar | medium-high; not executed | `Health.HpManager.SetHpCountAsWritten` (with `Health.RestartAfterGameOverAsWritten`) | `Health.HpManager.SetHpCount` (with `Health.RestartAfterGameOver`), used by `Level.LevelManager.StartLevel` |
| Assets/ApplicationContent/Scripts/Gameplay/Bricks/ProjectileSpawner.cs:143 | the draw `Random.Range(1, totalNumbers)` never returns 0; the scan gives the last archetype the draws 0 up to its weight minus 1, so it loses one of its draws | weights [50, 1]: draws 1 to 50 all choose the first archetype; only draw 0, which never comes, chooses the second | a draw uniform on [0, total), so each archetype spawns in proportion to its weight | high; not executed | `Spawning.AsWrittenDrawStarvesLastArchetype` | `Spawning.DrawSelectsByWeight` |
