# Verified models of Moonlight Embedded

Moonlight Embedded streams games from a PC to small Linux devices. Most of it connects libraries; this
project models the parts that carry state or arithmetic of their own and proves what they promise, for
every input and over every run. `dafny verify dfyconfig.toml` checks everything.

| file | models |
|---|---|
| `CTypes.dfy`, `Options.dfy`, `Counting.dfy` | C integer conversions and truncating division; an option type; sizes of sets |
| `Folding.dfy` | runs of a state machine, and what the last write of a run decides |
| `Text.dfy` | `getline`, the `sscanf` formats, `%d`, `strtol` |
| `AxisScaling.dfy` | calibration, scaling and direction of axes, and what the mapping wizard accepts |
| `Limelight.dfy` | the packets of the input protocol, as far as the input code uses them |
| `Evdev.dfy` | one evdev device: the effect of an event, and the state as a function of the history |
| `HandlerLaws.dfy` | what the event handler does, in key codes and calibrations: packets, rest positions, directions, crashes |
| `InputTable.dfy` | the device table and the controller ids over runs of additions, events and removals |
| `InputWire.dfy` | the one sequence of packets that the host receives from all devices |
| `InputEngine.dfy` | the table as an object with an array of devices, a count and a mask, updated in place, and the packets it sends |
| `SettingsFile.dfy`, `GamepadMapping.dfy` | `key = value` files, and the gamepad mapping file as one of them |
| `MappingNames.dfy`, `NamedControls.dfy` | the names in a mapping file written out, and the controls that a device has by them |
| `MappingWizard.dfy` | the wizard that records a mapping, and its agreement with the handler that uses it |
| `StreamBuffer.dfy` | the i.MX circular bitstream buffer as a queue of bytes |
| `DisplayQueue.dfy` | queueing, dequeueing and clearing of decoded frames on i.MX |
| `NestedFiles.dfy` | files that name further files, expanded in place |
| `Config.dfy` | options, configuration files, the file that is saved, and the checks at the end of parsing |
| `ConfigKeys.dfy` | the keys of a configuration file written out, and what a line with each asks for |
| `ConfigSaving.dfy` | what comes back from a saved configuration file, and exactly when |
| `ConfigRuns.dfy` | which starts survive their options, and what a run of options leaves in the settings |
| `XmlQuery.dfy`, `AppList.dfy` | the two XML queries as folds over parser events, and the lookup of an application |
| `RenderPool.dfy` | the pool of VDPAU render states |
| `Hex.dfy`, `Pairing.dfy` | the hex codec and the control flow of pairing |
| `SdlGamepads.dfy` | the gamepad slots of the SDL input code |

Code that updates state is written as methods of classes with loops; each method is proved against a
function of the old state, and the properties of whole runs are lemmas about those functions. Where the
source ends the program (`exit`, a division by zero, a null pointer), the model returns a result that says
so.

## Results worth knowing

The code does what its design asks in most places; the proofs also pin down where it does not:

- Axis scaling is monotone, and antitone when reversed, outside the dead zone for every calibration. Over all
  readings it is so exactly when there is no dead zone, or the dead zone fills the range, or the scale is of
  medium width and its centre was rounded towards the end that scales to the positive extreme: otherwise the
  edges of the dead zone do not scale to 0 (`MonotoneEverywhereExactly`).
- Scaling divides by zero exactly at the two end readings of a calibration whose dead zone fills its range
  (`TrapsExactly`).
- The wizard and the scaling agree exactly when the dead zone meets two linear bounds in the half range and
  the rounding of the centre (`WizardAgreesExactly`); a dead zone of at most a quarter of the half range
  always does (`WizardAgreesWithScaling`). Beyond the bounds an accepted reading falls short of a third of
  full deflection, and can even scale to the opposite end (`WideDeadZoneDisagrees`).
- For a trigger the wizard drops the reversal: a reading accepted on the lower side pulls by at most a third
  within the range, and past half exactly where it is below the minimum and wraps (`LowSideReleases`,
  `LowSidePullsExactly`, `RecordedTriggerWorks`).
- At or below rest a trigger reads 0 exactly inside the dead zone or where the low byte of the quotient
  vanishes (`TriggerRestsExactly`); every calibration with a dead zone smaller than the range has readings
  below the minimum, accepted by the wizard, for every byte there is (`EveryTriggerWraps`).
- An SDL trigger that is released reads 127; only readings about the lower end of its axis read 0, and the
  lowest of all wrap to 255 (`TriggerBytesExactly`).
- Controller ids are distinct, and the mask of assigned ids exact, exactly as long as no more than four
  devices hold ids at once (`IdsExactWhileAtMostFour`). A fifth shares id 0, and its removal frees the id that
  the other one still uses (`FifthGamepadSharesZero`).
- The host knows the pad of every device with an id other than 0, in every run (`HostSeesPadsAboveZero`).
  It knows those of all devices throughout a run exactly when no action sends the pad of one device under an
  id that a settled device with a different pad holds (`HostSeesAllExactly`), which never happens with at most
  four holders (`HostSeesPads`) and can happen with five, for every mapping with a button
  (`FifthGamepadHidesPad`, `PressAndReleaseDiffer`).
- On i.MX the frame last given back to the decoder is still on the display queue exactly once two frames
  have been displayed, or when the only one displayed is frame 0 (`ClearedWhileQueued`).
- A saved configuration is restored over the built-in defaults exactly when the app name is non-empty, holds
  no newline and does not begin with white space (`SaveRestoresExactly`). `docs/README.pod` says that `-save`
  keeps the configuration. The file names eight settings, and of those only what differs from the built-in
  default: a later start from the file has them exactly when, besides, the default file of that start
  overrides no default that was left out, and it has all settings, but for action, host and the file to save
  to, exactly when it agrees by itself on everything that the file does not name
  (`SavedStartComesBackExactly`).
- A start gets through its options exactly when each is allowed where it stands (`StartsSurviveExactly`); files that lead into a cycle end it with every stack, and otherwise as many levels
  as there are files are enough (`StartsSettleOrEnd`).
- The lookup of an application runs into one without a title, whose null or unwritten pointer it compares,
  exactly when that one comes, in the document, after every application with the title looked for
  (`LookupFindsLast`).

## Model

| member | source | states |
|---|---|---|
| `AxisScaling.PositionInScale` | src/input/evdev.c:101-112 | outside the dead zone the numerator of the scaling lies between 0 and the divisor, whatever way the centre was rounded |
| `AxisScaling.ParmsExactly` | src/input/evdev.c:80-87 | the centre is half the sum of the ends rounded towards zero, the half range reaches from it to the maximum |
| `AxisScaling.InitialisedAre` | src/input/evdev.c:80-87 | which ranges and dead zones the results on calibrations are about |
| `AxisScaling.ScalesPosition` | src/input/evdev.c:101-112 | every branch of the scaling, clamped or not, is one affine map of the position onto the full range of a short, rounded down; reversing complements the position; no result overflows a short |
| `AxisScaling.EndsAreExtremes` | src/input/evdev.c:104-107 | readings at or beyond the ends of the range give exactly the extremes of a short, swapped when reversed |
| `AxisScaling.MonotoneOutsideDeadZone` | src/input/evdev.c:101-112 | scaling is monotone over all readings outside the dead zone, across it too, and antitone when reversed |
| `AxisScaling.ReversalMirrors` | src/input/evdev.c:108-111 | forward plus reversed value is -1 where the position scales without remainder and -2 elsewhere |
| `AxisScaling.ReadsZeroExactly` | src/input/evdev.c:101-112 | for every dead zone, every reading and both directions: a reading scales to 0 if and only if it is less than the dead zone from the centre, or within the range with a quotient of exactly 32768 |
| `AxisScaling.FilledRangeValue` | src/input/evdev.c:101-112 | where the dead zone fills the range, what scales at all scales to 0 in the dead zone and to an extreme outside it |
| `AxisScaling.RimIsZeroExactly` | src/input/evdev.c:80-87 | the edge of the dead zone scales to 0 exactly for an odd sum of the ends, negative or when reversed positive, and a width from 21846 to 65535 |
| `AxisScaling.MonotoneEverywhereExactly` | src/input/evdev.c:101-112 | for every dead zone: over all readings scaling is monotone, and reversed scaling antitone, if and only if there is no dead zone, or it fills the range, or its edge scales to 0 in that direction |
| `AxisScaling.EvenCentreRim` | src/input/evdev.c:84 | with an even sum of the ends both edges of the dead zone scale to -1, reversed or not |
| `AxisScaling.TrapsExactly` | src/input/evdev.c:109-111 | the division is by zero exactly at the two ends of a range that the dead zone fills |
| `AxisScaling.TriggerTrapsExactly` | src/input/evdev.c:114-121 | a trigger divides by zero exactly when its dead zone fills its range, at the maximum or a dead zone below the minimum |
| `AxisScaling.DirectionExactly` | src/input/evdev.c:123-130 | a d-pad axis gives 0 exactly while four times its distance from the centre is at most the half range, else its side; reversing negates the direction |
| `AxisScaling.WizardAcceptsExactly` | src/input/evdev.c:338-343 | the wizard accepts a reading exactly if it is more than half the half range from the centre, on the side that decides the reversal |
| `AxisScaling.WizardAgreesWithDirection` | src/input/evdev.c:123-130 | a reading that the wizard accepts gives direction 1 under the reversal recorded for it, whatever the dead zone |
| `AxisScaling.WizardAgreesExactly` | src/input/evdev.c:333-345 | every reading that the wizard accepts scales to at least 10922 under the reversal recorded for it if and only if twice the dead zone is within two linear bounds, also for dead zones that fill the range |
| `AxisScaling.FittingDeadZoneDeflects` | src/input/evdev.c:101-112 | the same for one reading of such a calibration |
| `AxisScaling.UnfitDeadZoneDisagrees` | src/input/evdev.c:333-345 | outside the bounds the least reading accepted on one of the sides falls short |
| `AxisScaling.WizardAgreesWithScaling` | src/input/evdev.c:333-345 | for min < max a dead zone of at most a quarter of the half range is within the bounds, so that wizard and scaling agree |
| `AxisScaling.WideDeadZoneDisagrees` | src/input/evdev.c:333-345 | calibrations outside the bounds for which the accepted reading even scales to the opposite end |
| `AxisScaling.TriggerAgreesExactly` | src/input/evdev.c:114-121 | for every dead zone: every reading accepted on the upper side pulls a trigger past half if and only if the calibration meets one linear bound, or the dead zone fills the range and leaves out all such readings |
| `AxisScaling.LowSidePullsExactly` | src/input/evdev.c:114-121 | a reading accepted on the lower side pulls a trigger past half if and only if it is below the minimum and its quotient wraps past half: there is no reversal |
| `AxisScaling.LowSideReleases` | src/input/evdev.c:114-121 | within the range such a reading pulls by at most a third |
| `AxisScaling.TriggerScaling` | src/input/evdev.c:114-121 | from its minimum upwards a trigger scales monotonically, from 0 at rest to 255 at the maximum, without overflowing a byte |
| `AxisScaling.TriggerQuotient` | src/input/evdev.c:114-121 | from the dead zone to the maximum a trigger reads the distance past the dead zone, times 255, over the range less the dead zone, rounded down |
| `AxisScaling.TriggerReadsExactly` | src/input/evdev.c:114-121 | for every dead zone and every reading: nothing in the dead zone, full above the maximum, elsewhere the low byte of the quotient rounded towards zero, unless there is no divisor |
| `AxisScaling.TriggerBelowMinimum` | src/input/evdev.c:114-121 | below the minimum nothing clamps: outside the dead zone a trigger reads the low byte of a negative quotient |
| `AxisScaling.TriggerRestsExactly` | src/input/evdev.c:114-121 | at or below its minimum a trigger reads 0 if and only if the reading is in the dead zone or at rest, or the quotient is a multiple of 256 |
| `AxisScaling.EveryTriggerWraps` | src/input/evdev.c:114-121 | every calibration with a dead zone smaller than the range has, for every byte, a reading below the minimum that the wizard accepts and that reads as that byte |
| `AxisScaling.TriggerBelowMinimumWraps` | src/input/evdev.c:114-121 | such a reading can be full: -1 on the range 0 to 255 gives 255 |
| `Evdev.UnclaimedButton` | src/input/evdev.c:209-238 | a code stands for the button the mapping gives it to unless one compared earlier has it too, wherever in the chain it stands |
| `Evdev.UnclaimedAxis` | src/input/evdev.c:277-301 | the same for the chain of axes |
| `Evdev.StepWritesButton` | src/input/evdev.c:246-250 | an event changes a button flag exactly as its own button, or the direction of its d-pad axis, says, and no other |
| `Evdev.StepWritesStick` | src/input/evdev.c:277-284 | an event changes a stick axis exactly to the scaled reading of its own axis |
| `Evdev.StepWritesTriggers` | src/input/evdev.c:251-254 | an event changes a trigger to all or nothing from its button, or to the scaled reading of its axis |
| `Evdev.ModifierIsHistory` | src/input/evdev.c:163-185 | after any events shift is down exactly when the last event with code 42 or 54 was a press, alt likewise with 56 or 100, control with 29 or 97 |
| `Evdev.ButtonIsHistory` | src/input/evdev.c:208-250 | after any events a button flag is what the last event that addresses it set it to |
| `Evdev.TriggersAreHistory` | src/input/evdev.c:251-254 | after any events a trigger holds what the last event of its button or axis set it to |
| `Evdev.StickIsHistory` | src/input/evdev.c:277-284 | after any events a stick axis holds its last scaled reading |
| `Evdev.QuitExactly` | src/input/evdev.c:187-191 | the handler asks to stop exactly on a press of key 16 while the last event of each of these three pairs of codes was a press |
| `Evdev.PendingExactly` | src/input/evdev.c:241-320 | an update is pending exactly when a mapped event came after the last synchronisation |
| `Evdev.OppositeDirectionsExclude` | src/input/evdev.c:289-312 | with all d-pad buttons unmapped, opposite directions are never held together |
| `Evdev.MotionIsOpenFrame` | src/input/evdev.c:262-274 | the motion held back is the last reading of code 0, 1 or 8 since the last synchronisation |
| `HandlerLaws.KeySends` | src/input/evdev.c:163-194 | after any events a key below 121 sends one keyboard packet with the modifiers as it leaves them, or nothing if it completes the quit combination |
| `HandlerLaws.ButtonSends` | src/input/evdev.c:195-240 | codes 272, 273 and 274 send a click of the left, right and middle mouse button, and all others from 121 on send nothing by themselves |
| `HandlerLaws.MotionSendsNothing` | src/input/evdev.c:262-320 | motion and axis events send nothing by themselves |
| `HandlerLaws.SynSends` | src/input/evdev.c:135-161 | after any events a synchronisation sends the last motion of its frame, its last scrolling, and the pad if a mapped event came since the last one: each in one packet, and only if there is something |
| `HandlerLaws.PadKeysExactly` | src/input/evdev.c:195-259 | keys below 121 and the three mouse codes leave the pad alone |
| `HandlerLaws.StickHoldsReading` | src/input/evdev.c:277-284 | after any events a stick holds the scaled value of its last reading, by its own calibration and reversal |
| `HandlerLaws.StickRestsExactly` | src/input/evdev.c:101-112 | and reads 0 exactly where that reading is in the dead zone, or scales to 0 outside it |
| `HandlerLaws.StickRestsInDeadZone` | src/input/evdev.c:102-103 | so it is at rest when it is let go |
| `HandlerLaws.TriggerHoldsReading` | src/input/evdev.c:285-288 | a trigger holds the scaled value of its last reading |
| `HandlerLaws.TriggerHoldsKey` | src/input/evdev.c:251-254 | or is full or nothing after a key that is no button |
| `HandlerLaws.DpadFollowsX` | src/input/evdev.c:289-300 | after any events ending in a reading of the horizontal axis, right is down exactly past a quarter of the half range on the positive side, left on the negative, turned over if reversed |
| `HandlerLaws.DpadFollowsY` | src/input/evdev.c:301-312 | the same for down and up on the vertical axis |
| `HandlerLaws.CrashesExactly` | src/input/evdev.c:101-121 | an event ends the program by a division by zero exactly if it is one of the readings of a stick or trigger whose dead zone fills its range |
| `InputTable.AssignId` | src/input/evdev.c:147-158 | an id once held is kept; else the lowest free one of four is taken and marked, or 0 without a mark |
| `InputTable.SwapRemoveKeepsOthers` | src/input/evdev.c:89-99 | removing an entry keeps exactly the others and moves none but the last |
| `InputTable.FeedKeepsDeviceInv` | src/input/evdev.c:132-321 | one event keeps, for its device: state equal to its history, motion sent equal to the closed frames, and no update lost |
| `InputTable.DevicesOverRuns` | src/input/evdev.c:132-321 | after any additions, events and removals, every device has the state that its own events give, has sent the motion of its closed frames, and, without a pending update, has shown its current pad in the last packet |
| `InputTable.MotionIsConserved` | src/input/evdev.c:136-145 | in every reachable state the X, Y and scroll sent by a device are the sums, over the frames that a synchronisation closed, of the last reading in each |
| `InputTable.UpdatesExactly` | src/input/evdev.c:146-161 | in every reachable state an event sends one controller packet if it is a synchronisation and a mapped event came since the previous one, and none otherwise |
| `InputTable.SynFlushes` | src/input/evdev.c:136-161 | right after a synchronisation nothing is pending and the last packet sent shows the current pad |
| `InputTable.MaskOverRuns` | src/input/evdev.c:89-99 | in every reachable state bits 1 to 3 of the mask are exact and their ids unshared, and a set bit 0 has a holder |
| `InputTable.StepExactly` | src/input/evdev.c:146-158 | from distinct ids and an exact mask a step leads to the same exactly when at most four devices hold ids after it |
| `InputTable.IdsExactWhileAtMostFour` | src/input/evdev.c:146-158 | throughout a run all ids are distinct and the mask is exact if and only if never more than four devices hold ids |
| `InputTable.FifthGamepadSharesZero` | src/input/evdev.c:155-157 | a fifth gamepad shares id 0, and removing it clears the bit of the id that another device still holds |
| `InputWire.HostSeesPadsAboveZero` | src/input/evdev.c:146-161 | in every run the last controller packet of all devices under an id other than 0 holds the current pad of the device that has the id, if that has no update pending |
| `InputWire.HostSeesPads` | src/input/evdev.c:146-161 | while never more than four devices hold ids, so it is for every id |
| `InputWire.SightExactly` | src/input/evdev.c:132-321 | where the host knows the pads of all settled devices, it does after an action exactly if that does not send a pad under an id that a settled device with a different pad holds |
| `InputWire.HostSeesAllExactly` | src/input/evdev.c:132-321 | throughout a run the host knows the pads of all settled devices if and only if no action of it hides one |
| `InputWire.FifthGamepadIsReached` | src/input/evdev.c:146-158 | four gamepads connected and used, and a fifth connected and touched, for any mapping and calibration: all four ids are taken and the fifth has an update pending |
| `InputWire.FifthGamepadHidesPad` | src/input/evdev.c:155-161 | in that run, with pads in different states, the first update of the fifth hides the pad of the first |
| `InputWire.PressAndReleaseDiffer` | src/input/evdev.c:208-259 | every mapping with a button has such events |
| `InputWire.ActionShowsHolders` | src/input/evdev.c:132-321 | one action keeps, where ids are distinct: under every id held the host has seen last what its holder sent last |
| `InputEngine.Engine.constructor` | src/input/evdev.c:65-67 | no devices and no assigned ids |
| `InputEngine.Engine.Create` | src/input/evdev.c:383-430 | a device is added with the mapping that its file gives over a zeroed one, or a zeroed one, and the calibration of the axes it names |
| `InputEngine.Engine.Append` | src/input/evdev.c:391-408 | growing the array keeps all devices and adds a zeroed one |
| `InputEngine.Engine.RemoveDevice` | src/input/evdev.c:89-99 | the array, count and mask take the step of a removal |
| `InputEngine.Engine.AssignControllerId` | src/input/evdev.c:147-158 | the loop over the four bits finds the lowest free id |
| `InputEngine.Engine.HandleSyn` | src/input/evdev.c:136-162 | takes the step of a synchronisation under the id that the allocator gives, and sends its packets |
| `InputEngine.Engine.HandleKey` | src/input/evdev.c:163-261 | takes the step of a key or button event, sends its packets, and stops exactly on the quit combination |
| `InputEngine.Engine.HandleAbs` | src/input/evdev.c:275-316 | takes the step of an axis event, with a report exactly when scaling divides by zero |
| `InputEngine.Engine.MoveAxis` | src/input/evdev.c:275-316 | the chain of comparisons changes the pad as the first axis with the code says |
| `InputEngine.Engine.MoveStick` | src/input/evdev.c:277-284 | a stick takes its scaled reading, or the division is by zero |
| `InputEngine.Engine.SetDirection` | src/input/evdev.c:291-300 | of the two flags of a d-pad axis exactly the one of the direction is left set |
| `InputEngine.Engine.Dispatch` | src/input/evdev.c:132-321 | the handler as a whole takes the step of the event, sends its packets and reports when to stop |
| `InputEngine.Engine.HandleEvent` | src/input/evdev.c:132-321 | the same for the entry of the table that the event belongs to; the other entries stay |
| `SettingsFile.LoadFile` | src/input/mapping.c:38-114 | the loop over the lines of the file is the fold of its lines |
| `SettingsFile.SaveFile` | src/input/mapping.c:125-167 | the writes give one line for each setting, in order |
| `SettingsFile.LastLineDecides` | src/input/mapping.c:38-114 | after loading, a setting holds what the last line for its key says, and its old value without one |
| `SettingsFile.SameLinesPerKeySameResult` | src/input/mapping.c:38-114 | two files that agree, key by key, on the lines for that key load alike |
| `SettingsFile.PermutedLinesLoadAlike` | src/input/mapping.c:38-114 | permuting lines with distinct keys does not change the result |
| `SettingsFile.SaveThenLoad` | src/input/mapping.c:29-170 | a file with a line for every setting restores them all over any starting structure |
| `GamepadMapping.Load` | src/input/mapping.c:29-116 | loading a mapping file is the fold of its lines over the starting mapping |
| `MappingNames.StickNames` | src/input/mapping.c:42-59 | a line `abs_x = n` sets that member to any short n, whatever the mapping before, and nothing else; likewise for the other stick axes |
| `MappingNames.OtherAxisNames` | src/input/mapping.c:42-59 | likewise for the axes of the triggers and the d-pad, and the dead zone |
| `MappingNames.FaceButtonNames` | src/input/mapping.c:60-67 | likewise for `btn_south`, `btn_east`, `btn_north` and `btn_west` |
| `MappingNames.MiddleButtonNames` | src/input/mapping.c:68-73 | likewise for the buttons in the middle |
| `MappingNames.StickButtonNames` | src/input/mapping.c:74-77 | and on the sticks |
| `MappingNames.ShoulderNames` | src/input/mapping.c:78-85 | likewise for the shoulder buttons and triggers |
| `MappingNames.DpadNames` | src/input/mapping.c:86-93 | likewise for the d-pad buttons |
| `MappingNames.ReverseNames` | src/input/mapping.c:94-105 | a line with the name of a reversal sets that flag with the word true and clears it with any other |
| `MappingNames.AnyWordSets` | src/input/mapping.c:41-93 | a number that is not a short is cut to one, and any other word reads as `strtol` reads it |
| `MappingNames.OtherLines` | src/input/mapping.c:38-114 | a line without a key and a value, or with a key that is none of the 32 names, changes nothing |
| `MappingNames.SavedLines` | src/input/mapping.c:118-170 | the saved file has one line for each of the 32 names, in the source's order, with the number or the word of its member |
| `NamedControls.FaceButtonsPlay` | src/input/evdev.c:209-216 | on a device whose mapping has the line `btn_south = n`, pressing n sets A and releasing it clears A, after any events; `btn_east` is B, `btn_west` X and `btn_north` Y |
| `NamedControls.MiddleButtonsPlay` | src/input/evdev.c:233-238 | select is back, start is play, mode is the special button |
| `NamedControls.StickButtonsPlay` | src/input/evdev.c:225-228 | the thumb buttons are those of the sticks |
| `NamedControls.ShouldersPlay` | src/input/evdev.c:229-232 | `btn_tl` and `btn_tr` are the shoulder buttons |
| `NamedControls.DpadPlays` | src/input/evdev.c:217-224 | the d-pad buttons are those of their names |
| `NamedControls.TriggersPull` | src/input/evdev.c:251-254 | `btn_tl2` and `btn_tr2` pull the left and right trigger fully |
| `NamedControls.SticksMove` | src/input/evdev.c:277-284 | on a device whose mapping has the lines `abs_x = n` and `reverse_x = w`, a reading of n moves the left stick horizontally by the calibration of n, reversed exactly if w is true; likewise for the other three |
| `NamedControls.StickMembers` | src/input/evdev.c:277-284 | which members of the packet the four stick axes are |
| `NamedControls.TriggerAxesPull` | src/input/evdev.c:285-288 | `abs_z` and `abs_rz` pull the left and right trigger by the calibration of their code |
| `NamedControls.DpadDirects` | src/input/evdev.c:289-312 | `abs_dpad_x` presses right and left, `abs_dpad_y` down and up, by the calibration of their code and their reversals |
| `GamepadMapping.Save` | src/input/mapping.c:118-170 | the text of the file that is written |
| `GamepadMapping.LoadedIsMapping` | src/input/mapping.c:29-116 | loading keeps numbers numbers and flags flags |
| `GamepadMapping.KeyInjective` | src/input/mapping.c:42-105 | no two members have the same key |
| `GamepadMapping.MappingRoundTrip` | src/input/mapping.c:29-170 | loading what was saved gives back all 32 members, whatever they were before |
| `GamepadMapping.PermutedMappingLoadsAlike` | src/input/mapping.c:38-114 | the lines of a mapping file with distinct keys may come in any order |
| `Text.LinesOfJoin` | src/input/mapping.c:38 | reading lines back gives the lines that were written |
| `Text.LinesOfUnended` | src/input/mapping.c:38 | a last line without a newline is read like the others |
| `Text.ScanTokensOfSetting` | src/input/mapping.c:40 | the key and token that were printed on a line are scanned from it |
| `Text.ScanToEndOfSetting` | src/config.c:236 | so are the key and the rest of the line, for a value without a newline that starts with no white space |
| `Text.ScanSpaced` | src/config.c:236 | both kinds of lines are scanned alike however they are spaced, as long as there is white space before the equals sign |
| `Text.WordAloneIsNotRead` | src/config.c:236 | a line whose first word is not followed by an equals sign is not read; `key=value` is one word |
| `Text.ScannedIsLineValue` | src/config.c:236 | whatever the line, a scanned value is of that kind |
| `Text.ScannedAreTokens` | src/input/mapping.c:40 | and two scanned words are words |
| `Text.StrtolOfPrinted` | src/input/mapping.c:41 | reading a printed number gives the number |
| `Text.StrtolReads` | src/input/mapping.c:41 | the number that a text begins with is read, after white space and a sign and whatever follows, saturating at the range of a long |
| `Text.StrtolReadsNothing` | src/input/mapping.c:41 | a text that begins with neither digit nor sign reads as 0 |
| `Text.DigitsAreDecimal` | src/input/mapping.c:41 | the ten digits and their values |
| `Text.DigitsArePositional` | src/input/mapping.c:41 | every digit counts ten times as much as the one after it |
| `MappingWizard.Wizard.HandleMappingEvent` | src/input/evdev.c:323-350 | which events record the key or the axis with its reversal, and which end the recording |
| `MappingWizard.LastAcceptedIsRecorded` | src/input/evdev.c:333-345 | the wizard records the code and reversal of the last reading it accepts |
| `MappingWizard.LastPressedIsRecorded` | src/input/evdev.c:326-332 | while a key is wanted, the code of the last key pressed is recorded |
| `MappingWizard.StopsExactly` | src/input/evdev.c:330-345 | recording goes on exactly until the key recorded last is released or the axis recorded last is back within half its half range |
| `MappingWizard.StopsOnAcceptedAxis` | src/input/evdev.c:344-345 | when it stops on an axis that is let go, that axis comes from the last accepted reading of the run |
| `MappingWizard.RecordedAxisIsFound` | src/input/evdev.c:469-509 | the field that the wizard fills in for an axis is the field under which the handler finds that axis |
| `MappingWizard.RecordedAxisWorks` | src/input/evdev.c:469-509 | record a stick axis, save, load and use it on the same device after any events: with a dead zone within the bounds, and unless its code was also recorded for an axis compared earlier, the accepted reading moves that stick to at least 10922 |
| `MappingWizard.RecordedDpadWorks` | src/input/evdev.c:482-492 | the same for the d-pad axes: the direction asked for is the one that goes down |
| `MappingWizard.RecordedButtonWorks` | src/input/evdev.c:494-507 | a code recorded for a button, and for none compared earlier, sets that button's flag when pressed and clears it when released |
| `MappingWizard.RecordedTriggerWorks` | src/input/evdev.c:502-504 | the same for the axis of a trigger: an accepted reading that does not divide by zero pulls it past half exactly when it was accepted on the upper side, or is below the minimum and wraps past half |
| `MappingWizard.RecordedTriggerKeyWorks` | src/input/evdev.c:502-504 | and for its key: all when pressed, nothing when released |
| `StreamBuffer.LinearCopy` | src/video/sdl.c:56-64 | the plain copy leaves the concatenation of the chunks at the start of the buffer |
| `StreamBuffer.ConcatAt` | src/video/sdl.c:56-64 | the bytes of a chunk keep their order, after those of the chunks before it |
| `StreamBuffer.RingCopy` | src/video/imx.c:304-324 | from any start, the end of the buffer included, and for chunks of any length and number that stay inside the buffer: the ring holds the last bytes written to it and the cursor is congruent to start plus length; where the unit is no longer than the ring a reader from the start, counting on modulo its size, finds exactly the concatenation of the chunks, and every other byte is the old one |
| `StreamBuffer.CopyChunk` | src/video/imx.c:308-323 | one chunk, split at the end of the buffer or not, moves the window of the last bytes by its own |
| `StreamBuffer.NextExactly` | src/video/imx.c:313-323 | a chunk that fits exactly leaves the target on the end of the buffer, one that does not leaves it behind its remainder |
| `StreamBuffer.ShortChunksStayInside` | src/video/imx.c:308-323 | chunks no longer than the buffer stay inside it, however many there are |
| `StreamBuffer.StaysInsideExactly` | src/video/imx.c:308-323 | one more chunk stays inside exactly if it is no longer than the buffer and the room before its end together |
| `StreamBuffer.WrittenMovesWindow` | src/video/imx.c:310-324 | writing a chunk pushes its bytes into the window of the last bytes written and as many of the oldest out of it |
| `StreamBuffer.SplitMovesWindow` | src/video/imx.c:310-317 | so does a chunk that is split at the end of the buffer, even one longer than the buffer |
| `StreamBuffer.MovedWindowIsWritten` | src/video/imx.c:310-324 | and a window so moved tells, byte by byte, how the ring was written |
| `StreamBuffer.WrittenDetermines` | src/video/imx.c:310-324 | that contract fixes every byte of the ring |
| `StreamBuffer.WrittenAt` | src/video/imx.c:310-324 | the same contract in offsets modulo the size: first the bytes, then the old content |
| `StreamBuffer.RingHoldsLinearCopy` | src/video/imx.c:310-324 | reading the ring from where it was written gives what the plain copy holds |
| `StreamBuffer.Bitstream.Submit` | src/video/imx.c:297-325 | a unit that fits the room left is appended to the unread bytes; one that does not is noticed but copied, and its last bytes replace the oldest unread ones; of one longer than the buffer the ring holds just the last bytes |
| `StreamBuffer.Bitstream.Consume` | src/video/imx.c:300 | the decoder takes bytes from the front |
| `StreamBuffer.AppendedRing` | src/video/imx.c:304-325 | what a write at the end of the unread bytes makes of them, in both cases |
| `DisplayQueue.Renderer.Begin` | src/video/imx.c:327-356 | takes the first part of the step; survives exactly if registration and start succeed where they are due and the decoder is not busy too long |
| `DisplayQueue.Renderer.ShowFrame` | src/video/imx.c:377-422 | takes the step of one displayed frame; survives exactly if every call that is due succeeds |
| `DisplayQueue.Renderer.Submit` | src/video/imx.c:327-430 | the whole step, and exactly when the program survives it |
| `DisplayQueue.SurvivesExactly` | src/video/imx.c:327-430 | after any surviving units, exactly which answers of the decoder and the driver end the program, with the number of frames displayed so far |
| `DisplayQueue.AllSurviveExactly` | src/video/imx.c:327-430 | a run survives exactly if each of its units does |
| `DisplayQueue.DisplaysExactly` | src/video/imx.c:358-381 | a unit displays a frame exactly if the decoder needs no more data and gives an index from 0 on |
| `DisplayQueue.CallsExactly` | src/video/imx.c:327-422 | after any surviving units, the calls of the next one in their order: registration for the first, the start, and for a frame queueing, turning the stream on for the first, dequeueing from the third on, and clearing the previous one |
| `DisplayQueue.StepKeepsBookkeeping` | src/video/imx.c:327-430 | one unit keeps the totals below |
| `DisplayQueue.BookkeepingOverRuns` | src/video/imx.c:327-430 | after any surviving units with n displayed frames: the queue holds the last min(n,2) of them, max(0,n-2) were dequeued, streaming and registration were started once, no frame is being decoded, and the cleared frames are 0 followed by the displayed ones without the last |
| `DisplayQueue.ClearedWhileQueued` | src/video/imx.c:409-422 | after any surviving units the frame last cleared is still queued if and only if two frames have been displayed or the only one is frame 0 |
| `DisplayQueue.OlderQueuedIsCleared` | src/video/imx.c:409-422 | from the second displayed frame on it is the older one queued |
| `Config.Configuration.SetOption` | src/config.c:118-222 | the effect of every option but a nested file, and when it ends the program |
| `Config.Configuration.SetDevices` | src/config.c:149-167 | the step of an input or a mapping that `Config.InputsOverRun` folds |
| `ConfigRuns.ValuesOverRun` | src/config.c:118-222 | after any surviving options platform, key directory, save file and audio device are the last ones given, or the defaults |
| `ConfigRuns.SwitchesOverRun` | src/config.c:118-222 | windowed mode, forced hardware and unsupported versions are set exactly when their option was given at all |
| `ConfigRuns.StreamOverRun` | src/config.c:118-222 | width, height, frame rate, bitrate and packet size are the last ones given, directly or by a named format |
| `ConfigRuns.StreamSwitchesOverRun` | src/config.c:193-209 | remote streaming, surround sound and HEVC are set exactly when their option was given |
| `ConfigRuns.AppOverRun` | src/config.c:146-148 | the application is the last one given; optimal settings and audio on the host are what a file or an option last asked for |
| `ConfigRuns.BitrateExactly` | src/config.c:339-346 | the bitrate of a start is the last one given, else 20000 for a picture of at least 1080 lines and 60 frames, 10000 for one that has either, 5000 for any other |
| `ConfigRuns.KeyDirOfStart` | src/config.c:329-337 | the key directory of a start is the last one given, or the cache directory |
| `ConfigRuns.DefaultFileComesFirst` | src/config.c:309-324 | the directives of the default file, if it can be read, come before those of the command line |
| `ConfigRuns.ArgumentsAreGiven` | src/config.c:317-324 | the options of a command line are taken in order |
| `ConfigRuns.HostOverRun` | src/config.c:212-221 | the first argument without a name is the action and the second the address, there is no third, and an address in a file overrides the second |
| `ConfigRuns.ActionAndAddress` | src/config.c:283-327 | the same for every start, from a file alone or from a command line, default file and nested files included |
| `ConfigRuns.SurvivesExactly` | src/config.c:118-222 | options go through if and only if each is allowed after those before it: a seventh input, an unknown mapping file, an unreadable file, or an unnamed argument when action and address are both taken end the program |
| `ConfigRuns.TakenOverRun` | src/config.c:212-221 | after any surviving options there is an action exactly if one was named or an unnamed argument came, and an address exactly if one was named or an unnamed argument found the action taken |
| `ConfigRuns.StartsSurviveExactly` | src/config.c:283-327 | the same for every start, from a file alone or from a command line, nested files expanded in place |
| `NestedFiles.ExpansionSettles` | src/config.c:177-181 | a depth of nested calls that was enough for an expansion gives the same as any greater one |
| `NestedFiles.AcyclicSettles` | src/config.c:177-181 | files that do not include themselves have one expansion, whatever the depth beyond their ranks |
| `NestedFiles.CycleNeverSettles` | src/config.c:177-181 | for files that include one another no depth is enough |
| `NestedFiles.SettlesOrCycles` | src/config.c:177-181 | one of the two always holds: with finitely many files, as many levels as there are files give the same as any greater depth, or the directives lead into a cycle and no depth is enough |
| `NestedFiles.AcyclicHasNoCycle` | src/config.c:177-181 | files with ranks hold no cycle |
| `ConfigRuns.SurvivorsNeedNoDeeperStack` | src/config.c:283-327 | a start that survives with some depth has the same options with any greater one |
| `ConfigRuns.CyclicStartsEnd` | src/config.c:177-181 | a start that leads into files which include one another ends the program at every depth |
| `ConfigRuns.StartsSettleOrEnd` | src/config.c:283-327 | one of the two for every start |
| `ConfigRuns.AcyclicStartsSettle` | src/config.c:283-327 | where no file includes itself, directly or through others, the options of a start do not depend on a depth of at least the number of files |
| `Config.Configuration.SetStream` | src/config.c:118-222 | one option on the stream settings is the step that the option-sequence lemmas fold |
| `Config.Configuration.ParseArgument` | src/config.c:118-222 | any option, nested files expanded in place |
| `Config.Configuration.ParseLine` | src/config.c:236-250 | one line of a file |
| `ConfigKeys.StreamKeys` | src/config.c:43-69 | a line `width = v` asks for that option with the rest of the line as its value; likewise for `height`, `bitrate`, `packetsize` and `fps` |
| `ConfigKeys.DeviceKeys` | src/config.c:43-69 | likewise for `app`, `input`, `mapping` and `audio` |
| `ConfigKeys.FileKeys` | src/config.c:43-69 | likewise for `config`, `platform`, `save` and `keydir` |
| `ConfigKeys.SpecialKeys` | src/config.c:237-242 | `address` names the host; `sops` and `localaudio` are on exactly for the value true |
| `ConfigKeys.OtherLines` | src/config.c:236-249 | a line without a key and a value, or with none of the sixteen keys, asks for nothing |
| `ConfigKeys.InputCarriesMapping` | src/config.c:149-167 | the input of a file with a mapping line and then an input line carries that mapping |
| `Config.Configuration.ConfigFileParse` | src/config.c:224-253 | a file runs as its directives with nested files expanded in place |
| `Config.ConfigSave` | src/config.c:255-281 | the text of the saved file |
| `ConfigSaving.SavedText` | src/config.c:255-281 | the saved file is the lines of those of the eight settings that differ from their defaults, in this order |
| `ConfigSaving.SavedIsMerged` | src/config.c:224-281 | parsing a saved file over any settings takes over what differs from its built-in default and leaves all else |
| `ConfigSaving.ComesBackExactly` | src/config.c:224-281 | over any settings the eight come back if and only if the app name is of that kind and no left-out default is overridden in them, and all come back if and only if, besides, they agree on the rest |
| `ConfigSaving.SaveRestoresExactly` | src/config.c:224-281 | saving and parsing into the defaults restores width, height, fps, bitrate, packetsize, sops, localaudio and app if and only if the app name is non-empty, holds no newline and does not begin with white space |
| `ConfigSaving.StartFromFile` | src/config.c:309-315 | a start from a file alone is its default file, the action to stream, and the file parsed over that |
| `ConfigSaving.SavedStartComesBackExactly` | src/config.c:283-327 | what comes back of any settings in a start from the file they were saved to, and exactly when: for the eight that a file can name, and for all but action, host and the file to save to |
| `ConfigSaving.SavedStartStreams` | src/config.c:309-315 | such a start streams, with the host of its default file |
| `ConfigSaving.SavedStartWithoutDefaultFile` | src/config.c:309-315 | without a default file no left-out default is overridden |
| `ConfigSaving.SomeStartSaves` | src/config.c:309-327 | the settings that a start with `-nosops -save` saves |
| `ConfigSaving.SomeSettingsComeBack` | src/config.c:255-281 | and these do come back as a whole |
| `ConfigSaving.SameDerivedBitrate` | src/config.c:339-346 | the restored configuration derives the same bitrate |
| `Config.InputsOverRun` | src/config.c:149-167 | the inputs are those named, in order, at most six, each with the mapping in force where it was named |
| `Config.FlagsOverRun` | src/config.c:149-167 | the two flags say whether an input was named and whether no input follows the last mapping option |
| `Config.InputsCarryMapping` | src/config.c:283-357 | both for every start of the program, and the program is turned away exactly when an input was named and the last mapping option has no input after it or no mapping exists |
| `Config.EndOfParsing` | src/config.c:329-356 | the derived bitrate and key directory, and the final checks |
| `Config.ParseCommandLine` | src/config.c:313-324 | a single file or the options, one after another |
| `Config.ConfigParse` | src/config.c:283-357 | the start as a whole: default file, command line, saving, and the end of parsing |
| `XmlQuery.TextQuery.OnStartElement` | libgamestream/xml.c:35-39 | takes the step of the search on an opening tag |
| `XmlQuery.TextQuery.OnEndElement` | libgamestream/xml.c:41-45 | takes its step on a closing tag |
| `XmlQuery.TextQuery.OnCharData` | libgamestream/xml.c:82-93 | takes its step on a piece of text |
| `XmlQuery.XmlSearch` | libgamestream/xml.c:95-120 | the result is the fold of the events |
| `XmlQuery.ChunkingDoesNotMatter` | libgamestream/xml.c:82-93 | two deliveries of a document that differ only in the pieces of its text give the same result |
| `XmlQuery.CutTextIsJoined` | libgamestream/xml.c:82-93 | two deliveries that differ in where one text is cut in two are such deliveries, whatever comes before and after |
| `XmlQuery.SearchJoinsText` | libgamestream/xml.c:82-93 | the node search is such a handler |
| `XmlQuery.SearchFindsTextInside` | libgamestream/xml.c:95-120 | the search yields exactly the text inside elements of the given name, for every well-formed document |
| `XmlQuery.SearchOfDocument` | libgamestream/xml.c:95-120 | the same for every delivery of the document, however its text is cut up |
| `AppList.ListQuery.OnStartElement` | libgamestream/xml.c:47-63 | takes the step of the list query on an opening tag; the memory of a field starts unwritten |
| `AppList.ListQuery.OnEndElement` | libgamestream/xml.c:65-80 | takes its step on a closing tag, also where no record was opened |
| `AppList.ListQuery.OnCharData` | libgamestream/xml.c:82-93 | takes its step on a piece of text |
| `AppList.XmlApplist` | libgamestream/xml.c:122-143 | the list is the fold of the events |
| `AppList.AppListJoinsText` | libgamestream/xml.c:82-93 | the list does not depend on the pieces of text either |
| `AppList.QueryLists` | libgamestream/xml.c:47-93 | for every document, and whatever the query was doing before: an application opens an entry, and an id or title that is plain text fills in the entry opened last, wherever it stands; one with elements inside it does not |
| `AppList.BodyFillsHead` | libgamestream/xml.c:47-80 | the fields of a record, in any order, fill in its entry and no other |
| `AppList.ListIsReversed` | libgamestream/xml.c:122-143 | for documents whose ids and titles are plain text, possibly empty, in records, the list holds the records in reverse document order |
| `AppList.RecordsAreApps` | libgamestream/xml.c:122-143 | for these the entries in the order of their opening are the records as written |
| `AppList.GetAppId` | src/main.c:63-77 | the walk along the list finds the first entry with the title |
| `AppList.LookupFindsLast` | src/main.c:63-77 | for every document, however its text is cut up, the lookup gives the id of the last entry with the title, or -1; it is undefined exactly when an entry without a title comes after all of those, or that id was empty |
| `AppList.AppsMeanEntries` | libgamestream/xml.c:65-80 | where ids and titles belong to records, an entry has exactly the text of the last title in its record, and the number that the text of the last id reads as |
| `AppList.LookupGivesNumber` | src/main.c:63-77 | end to end: if the last record with a title has the decimal text of a 32-bit number as its id, and those after it have titles, looking the title up gives the number |
| `AppList.LookupFindsNone` | src/main.c:76 | if all records have titles but none has this one, it gives -1 |
| `AppList.OneAppIsFound` | src/main.c:63-77 | the application of a document with one, whose id is the decimal text of n, is found by its title, whatever that is, as n |
| `RenderPool.Pool.GetFreeRenderState` | src/video/ffmpeg_vdpau.c:47-65 | the first free state, else a new one, else none |
| `RenderPool.Pool.GetBuffer` | src/video/ffmpeg_vdpau.c:72-79 | the state returned was free, is the first such or a new one, and is now in use; none is returned only from a full pool |
| `RenderPool.Pool.ReleaseBuffer` | src/video/ffmpeg_vdpau.c:67-70 | exactly this state is free again |
| `RenderPool.FreeStateUnique` | src/video/ffmpeg_vdpau.c:47-65 | the search has only one possible result |
| `RenderPool.InvOverRuns` | src/video/ffmpeg_vdpau.c:47-79 | in every reachable state live frames own different states, and a state is in use exactly when a live frame owns it |
| `RenderPool.StatesArePeak` | src/video/ffmpeg_vdpau.c:54-61 | the number of states created is the most frames that were ever live at once, and at most 32 |
| `RenderPool.GetSucceedsExactly` | src/video/ffmpeg_vdpau.c:47-65 | a state is found exactly while fewer than 32 frames are live, and it is not that of a live frame |
| `Hex.BytesToHex` | libgamestream/client.c:281-286 | two lowercase digits for each byte, the terminator at twice the length, and nothing beyond |
| `Hex.HexToBytes` | libgamestream/client.c:433-435 | what the decoding loop leaves in its buffer, for any text |
| `Hex.EncodeAt` | libgamestream/client.c:281-286 | which two digits stand at which place |
| `Hex.DecodeEncode` | libgamestream/client.c:281-286 | decoding the text of any bytes restores them and leaves the rest of the buffer alone |
| `Hex.HexDigitsAre` | libgamestream/client.c:281-286 | the sixteen digits, written in lowercase and read in either case |
| `Hex.NoOtherDigits` | libgamestream/client.c:433-435 | no other character is read as a digit |
| `Hex.PairScans` | libgamestream/client.c:433-435 | two digits in any case are read as one byte, the first counting sixteen times |
| `Hex.EncodeDecode` | libgamestream/client.c:540-542 | re-encoding a decoded text of lowercase digits of even number gives the text |
| `Pairing.Server.Exchange` | libgamestream/client.c:464-476 | one request is sent; its code is that of the first of its three checks that fails |
| `Pairing.Server.Negotiate` | libgamestream/client.c:409-596 | the exchanges up to the first that fails, and its code |
| `Pairing.Server.Pair` | libgamestream/client.c:381-610 | the call as a whole: its code, whether the server is paired, and the requests sent |
| `Pairing.PairingIsSafe` | libgamestream/client.c:381-610 | for every behaviour of the server and the cryptographic library the pairing requests are a prefix of the protocol, the server becomes paired exactly on success, success takes all five exchanges and both signatures, a failure after the first request ends with exactly one unpair, and a call in the wrong state sends nothing |
| `Pairing.CodeIsFirstFailure` | libgamestream/client.c:381-596 | the call returns the code of the first check that fails, of all its checks in order |
| `SdlGamepads.Gamepads.GetGamepad` | src/input/sdlinput.c:60-71 | the slot of a known controller, the first free one for a new one, else slot 0; no other slot changes |
| `SdlGamepads.Gamepads.UpdatePad` | src/input/sdlinput.c:142-226 | one event on the pad of its slot is the step that the history lemmas fold |
| `SdlGamepads.Gamepads.HandleEvent` | src/input/sdlinput.c:142-226 | slots stay a prefix numbered by index, each pad is the fold of the events routed to its slot, and a known control sends that pad under the slot's number |
| `SdlGamepads.SlotButtonIsHistory` | src/input/sdlinput.c:170-224 | in a slot, a button is down exactly when the last event about it that fell there pressed it |
| `SdlGamepads.SlotAxisIsHistory` | src/input/sdlinput.c:142-169 | and each stick and trigger holds the last reading of its axis, vertical sticks turned over |
| `SdlGamepads.TriggerBytesExactly` | src/input/sdlinput.c:157-162 | from -32512 upwards a trigger reads the number of whole steps of 256 above that; it reads 0 exactly from -32512 to -32257, 127 when released, and 255 exactly below -32512 |
| `SdlGamepads.SlotExtend` | src/input/sdlinput.c:60-71 | one event keeps this for every slot |
| `SdlGamepads.RoutingIsStable` | src/input/sdlinput.c:60-71 | the slot that an event fell to is the one its controller has at the end of the run |
| `SdlGamepads.FirstFourAreApart` | src/input/sdlinput.c:60-71 | controllers with a slot of their own never share it; all others fall to slot 0 |
| `SdlGamepads.FirstFourAreAssigned` | src/input/sdlinput.c:60-71 | up to four controllers each have a slot of their own, then all four slots are taken |

## Left out

- Device opening, `ioctl`, libevdev, udev, polling and signals: operating system. Which device an event or a removal belongs to is a free choice of the run; the selection by file descriptor (src/input/evdev.c:359-381), which assigns where it should compare, is not modelled.
- Key code translation, constants of Limelight.h: packets carry the Linux key code, and buttons and modifiers are sets of names instead of bit masks, so the sign extension of a flag in the top bit of a short is not modelled.
- Overflow of 32-bit arithmetic on calibrations and readings, and the narrowing of mouse motion in the protocol: integers are unbounded except where the source converts to a short, a byte or an int.
- The sequence of prompts in `evdev_map`: each prompt is a recording of its own; that the two d-pad prompts are skipped for an axis is not modelled.
- Opening files: parsers take the text of the file; strings hold no NUL.
- StreamBuffer.RingCopy: a chunk longer than the 2 MiB buffer and the room before its end together, whose copy would leave the buffer. What the decoder does when told of more bytes than it has room for is not modelled.
- The VPU, V4L2, VDPAU, curl, expat and OpenSSL calls: their outcomes are inputs. Documents are well-formed; a parse error only makes the query fail. Allocation succeeds except where pairing itself checks it.
- The search path of `get_path`: it is a map from names to paths. `getopt` itself: options arrive in order. The fixed sizes of C string buffers, among them the key directory and the decoded challenge and secret.
- Config.Expand: how deep the calls for nested files can go before the stack is exhausted is a parameter, and going beyond ends the program.
- RenderPool.Pool.GetBuffer: the call goes on through a null pointer when all 32 states are in use; the model returns no state.
- AppList.LookupFindsLast: unwritten memory and a null pointer are read as undefined.
- Pairing.PairingIsSafe: the request to unpair is always sent; the source sends none if there is no memory for it (libgamestream/client.c:368-370).
- The keyboard and mouse part of the SDL handler, the remaining requests of the client (server status, starting and quitting an application), and the linked-list memory of the application list, which is a sequence here.
- `gs_sps_fix`, `loop_remove_fd`, certificate creation, discovery, audio, window handling, help text: not part of this model.
