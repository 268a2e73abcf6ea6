# ScreenDimmer in Dafny

ScreenDimmer dims the screens of a Windows desktop. It puts a translucent, click-through
window over each physical screen, or one window over the box that encloses all of them.
This project models the part of the program that keeps those windows' records in step with
the displays:

- the screen records (`ScreenInfo`) with their checked setters, and the overlay each one owns;
- DetectScreens, which reconciles the live display list with the stored records;
- the settings file, as SaveSettings writes it and the `OptionsForm(XDocument)` constructor
  reads it back, including the fallback to detection when reading fails;
- the deferred save (TriggerSave, the timer's Elapsed handler, the exit button);
- the option handlers that change the mode, Show, the opacity or the screen list.

Modules:

- `Wrappers`: `Option` and `Result`.
- `SettingsDocument`: the settings file as a typed tree of elements. `Int32.Parse`,
  `bool.Parse` and `double.Parse` are modelled on element texts that are already classified
  as a number or a boolean, or as neither.
- `Screens`: the constants and the `ScreenInfo` class. A record has name, index, origin,
  resolution, opacity, Show and Enabled. Its overlay is on screen exactly when the record
  owns an overlay, is enabled and is shown.
- `Reconciliation`: DetectScreens on values. `Detect` runs one pass over the live displays:
  it looks each name up, patches a stale record or appends a new one with the least free
  index, and grows the bounding box. It then rebuilds the basic record when something changed.
- `Persistence`: the document SaveSettings writes (`Encode`) and what the loader reads from
  a document (`Load`). It also covers the 32-bit arithmetic on the stored edges and the
  round trip between the two.
- `Debounce`: the save flag and the count of writes as a small state machine over edit,
  elapsed and exit events.
- `Dimmer`: the `OptionsForm` class. Its fields are the screen list, the basic record, the
  mode, the pending-save flag and the settings files written. Every method is proved against
  the functions of the modules above.

Modelling choices:

- The live display list (`Screen.AllScreens`) is a parameter of each operation that reads it.
- An exception that escapes an operation is the result `ok == false` (or an error value),
  with the state the operation had reached when it threw.
- The overlay window is two fields of the record: whether it exists and whether it is shown.
- C# `int` arithmetic on the stored right and down edges wraps around (`Wrap32`).
- Opacity is a real number. The opacity control's value divided by 100 is exact.

## Model

| member | source | states |
|---|---|---|
| Screens.ClampOpacity | ScreenDimmer/ScreenInfo.cs:154-158 | The result lies in [0, MAX_OPACITY]. An opacity already in that range is kept, values above become MAX_OPACITY and values below become 0. |
| Screens.ReadScreen | ScreenDimmer/ScreenInfo.cs:133-162 | The element is read exactly when every field parses and the geometry lies within the constant bounds. A parsed element with out-of-range geometry is an OutOfRange error. A record read keeps the element's values, has its opacity clamped, and is neither shown nor enabled. |
| Screens.ScreenInfo.constructor | ScreenDimmer/ScreenInfo.cs:165-180 | The geometry is taken unchecked and the opacity is clamped. The record is neither shown nor enabled, and its overlay exists but is hidden. |
| Screens.ScreenInfo.FromElement | ScreenDimmer/ScreenInfo.cs:133-162 | Fails with exactly the error of ReadScreen. Otherwise it gives a fresh record whose values are ReadScreen's, with its overlay hidden. |
| Screens.ScreenInfo.SetOriginX | ScreenDimmer/ScreenInfo.cs:41-50 | Accepts a value exactly when it lies in [-20000, 20000] and then stores it. A rejected value leaves the record as it was. Visibility never changes. |
| Screens.ScreenInfo.SetOriginY | ScreenDimmer/ScreenInfo.cs:52-61 | The same, with [-10000, 10000]. |
| Screens.ScreenInfo.SetResolutionX | ScreenDimmer/ScreenInfo.cs:63-72 | The same, with [1, 10000]. |
| Screens.ScreenInfo.SetResolutionY | ScreenDimmer/ScreenInfo.cs:74-83 | The same, with [1, 10000]. |
| Screens.ScreenInfo.SetOpacity | ScreenDimmer/ScreenInfo.cs:85-94 | The same, with [0.05, 0.9]. |
| Screens.ScreenInfo.SetShow | ScreenDimmer/ScreenInfo.cs:96-105 | Stores Show and nothing else. Afterwards the overlay is on screen exactly when the record is enabled and shown. |
| Screens.ScreenInfo.SetEnabled | ScreenDimmer/ScreenInfo.cs:107-116 | Stores Enabled and nothing else. Afterwards the overlay is on screen exactly when the record is enabled and shown. |
| Screens.ScreenInfo.Destroy | ScreenDimmer/ScreenInfo.cs:192 | Closes the overlay, so the record has none and nothing is on screen. The record's values stay as they were. |
| SettingsDocument.ParseInt32 | ScreenDimmer/OptionsForm.cs:117-120 | Succeeds exactly on a number text within the 32-bit range, giving that number. An out-of-range number is an Overflow error and any other text is Malformed. |
| SettingsDocument.ParseBool | ScreenDimmer/OptionsForm.cs:115 | Succeeds exactly on a boolean text, giving its value. Any other text is Malformed. |
| SettingsDocument.ParseReal | ScreenDimmer/OptionsForm.cs:122 | Succeeds exactly on a number text, giving its value. Any other text is Malformed. |
| Reconciliation.LeastFreeFrom | ScreenDimmer/OptionsForm.cs:441-456 | The least integer at or above the start that no record uses. |
| Reconciliation.LeastFreeIndex | ScreenDimmer/OptionsForm.cs:441-456 | The new index is positive and unused, and every positive index below it is used. |
| Reconciliation.Lookup | ScreenDimmer/OptionsForm.cs:413-436 | The position of the first record with the display's name, or the list's length when no record has it. |
| Reconciliation.Patch | ScreenDimmer/OptionsForm.cs:418-431 | The four setters in a row succeed exactly when the live geometry lies within the bounds, and then store it. Name, index, opacity and flags are kept either way. |
| Reconciliation.PlaceFacts | ScreenDimmer/OptionsForm.cs:405-460 | Placing one display changes the list exactly when the display is stale and placing succeeds. It fails only on an out-of-range patch. It touches only the record with that name, or appends the new record with the least free index. Afterwards the display is no longer stale. |
| Reconciliation.EncloseBounds | ScreenDimmer/OptionsForm.cs:463-471 | The running bounds enclose the start box and every live display. Each edge is either the start edge or some display's edge. |
| Reconciliation.SweepKeepsSettings | ScreenDimmer/OptionsForm.cs:405-461 | A pass only appends. Every record it started with keeps its name, index, opacity and flags. |
| Reconciliation.SweepKeepsDetached | ScreenDimmer/OptionsForm.cs:405-461 | A pass leaves unchanged every record whose name no live display has. |
| Reconciliation.SweepCreates | ScreenDimmer/OptionsForm.cs:438-459 | Every record a pass appends is for a live display. Its index is the least free one at its place, its opacity is DEFAULT_OPACITY, it is not shown, and it is enabled exactly in separate-screen mode. |
| Reconciliation.DetectKeepsIndicesDistinct | ScreenDimmer/OptionsForm.cs:441-459 | A list with distinct positive indices keeps distinct positive indices after DetectScreens. |
| Reconciliation.VisitKeepsOthers | ScreenDimmer/OptionsForm.cs:413-436 | Visiting one display leaves the first record of every other name at the same place and unchanged. |
| Reconciliation.SweepOkInRange | ScreenDimmer/OptionsForm.cs:418-431 | A pass over displays whose geometry lies within the setter bounds throws nothing. |
| Reconciliation.SweepMatches | ScreenDimmer/OptionsForm.cs:414-436 | With distinct live names, after a successful pass every live display has a record with its geometry. |
| Reconciliation.SweepKeepsUnattached | ScreenDimmer/OptionsForm.cs:413-436 | Lookups of a name that no remaining display has give the same record after the pass as before. |
| Reconciliation.SweepDirty | ScreenDimmer/OptionsForm.cs:401-471 | The pass is marked changed exactly when some live display was new or had a different geometry. Its box is the enclosing box of the live displays. |
| Reconciliation.SweepSettled | ScreenDimmer/OptionsForm.cs:418-436 | A pass over displays that are all up to date changes no record and leaves the pass unmarked. |
| Reconciliation.DetectOnlyAppends | ScreenDimmer/OptionsForm.cs:405-461 | DetectScreens never removes or reorders records. It keeps every record's settings and leaves records of detached displays untouched. Each record it appends is a new record for a live display. |
| Reconciliation.DetectPatchesLive | ScreenDimmer/OptionsForm.cs:414-436 | With distinct live names and a pass that throws nothing, every live display's first record ends with that display's geometry. |
| Reconciliation.DetectRebuildsBasic | ScreenDimmer/OptionsForm.cs:474-481 | With distinct live names and a pass that throws nothing, when some live display was new or changed, the basic record is set to the box enclosing (0, 0) and all displays. This succeeds exactly when the box lies within the setter bounds. The basic record's name, index, opacity and flags never change. |
| Reconciliation.DetectLeavesSettled | ScreenDimmer/OptionsForm.cs:399-481 | When every live display is already up to date, DetectScreens changes nothing, the basic record included. |
| Reconciliation.DetectIdempotent | ScreenDimmer/OptionsForm.cs:399-481 | With distinct live names and a first pass that throws nothing, a second DetectScreens adds nothing, patches nothing and leaves the basic record alone. |
| Persistence.Wrap32 | ScreenDimmer/OptionsForm.cs:683-684 | Unchecked 32-bit arithmetic: the result is a 32-bit value, equal to the input when the input is one. |
| Persistence.WrapHarmless | ScreenDimmer/OptionsForm.cs:117-120 | For a 32-bit edge and an origin within bounds, the wrapped difference passes the resolution check exactly when the true difference does. |
| Persistence.EncodeScreens | ScreenDimmer/OptionsForm.cs:691-704 | One "screen" element per record, in list order. |
| Persistence.LoadHeader | ScreenDimmer/OptionsForm.cs:111-133 | A missing "options" or "basicScreen" element fails with the basic record untouched. A header read without error gives the stored mode. |
| Persistence.LoadOriginExact | ScreenDimmer/OptionsForm.cs:117-118 | The left and up edges are accepted exactly when both parse and lie within the origin bounds, and are then stored as the origin. |
| Persistence.LoadSizeExact | ScreenDimmer/OptionsForm.cs:119-120 | After an accepted origin, the right and down edges are accepted exactly when both are 32-bit values and right − left, down − up lie within [1, 10000]. Those differences are then stored as the size, so the 32-bit wrap never matters. |
| Persistence.LoadLookExact | ScreenDimmer/OptionsForm.cs:121-123 | Show and opacity are accepted exactly when Show is a boolean and the opacity lies in [0.05, 0.9]. They are then stored, with Enabled set opposite to the mode. |
| Persistence.LoadHeaderExact | ScreenDimmer/OptionsForm.cs:111-133 | The header is read exactly when both elements exist, the mode is a boolean and the basic block is readable. The basic record then gets the stored origin, right − left by down − up as its size, and the stored Show and opacity, and is enabled exactly in aggregate mode. Only a missing element gives MissingElement. |
| Persistence.LoadSucceeds | ScreenDimmer/OptionsForm.cs:102-178 | The loader succeeds exactly when the header is readable and every "screen" element reads, with a boolean Show text on every attached one. Any other document, for instance one whose basic block is out of range, sends the constructor to the fallback. |
| Persistence.LoadElement | ScreenDimmer/OptionsForm.cs:144-161 | One "screen" element either leaves the list as it was or appends exactly one record. |
| Persistence.LoadScreens | ScreenDimmer/OptionsForm.cs:136-170 | The loop over "screen" elements only appends to the list. |
| Persistence.LoadScreensAdmits | ScreenDimmer/OptionsForm.cs:145-162 | Every record the loop appends is for an attached display. Its geometry is within bounds, its opacity is clamped, and it is enabled exactly in separate-screen mode. |
| Persistence.LoadScreensFails | ScreenDimmer/OptionsForm.cs:136-170 | The loop fails exactly when some element cannot be read, or an attached element's Show text is not a boolean. Unattached elements are parsed too. |
| Persistence.LoadAdmits | ScreenDimmer/OptionsForm.cs:102-170 | Every record of a load that succeeded is admitted. |
| Persistence.LoadScreensRoundTrip | ScreenDimmer/OptionsForm.cs:691-704 | Admitted records, encoded by SaveSettings, are read back by the loop as the same records, and the loop succeeds. |
| Persistence.RoundTrip | ScreenDimmer/OptionsForm.cs:668-709 | Reading back SaveSettings' document gives the saved mode, basic record and records, with no error. This holds for a restorable state. The basic record is enabled exactly in aggregate mode. |
| Persistence.Numbered | ScreenDimmer/OptionsForm.cs:441-459 | One new record per display, numbered on from the given index, in display order. |
| Persistence.SweepFromNumbered | ScreenDimmer/OptionsForm.cs:405-461 | Over new displays with distinct names, a pass on a list numbered from 1 appends the displays' records numbered on. |
| Persistence.RedetectFromEmpty | ScreenDimmer/OptionsForm.cs:173-178 | The fallback's DetectScreens on an empty list gives one new record per live display, indexed 1, 2, … in display order. |
| Debounce.EditsOnlyArm | ScreenDimmer/OptionsForm.cs:656-665 | Any number of edits writes nothing. They only leave a save pending. |
| Debounce.Coalesce | ScreenDimmer/OptionsForm.cs:814-819 | One or more edits followed by the timer firing write the settings exactly once and leave no save pending. |
| Debounce.SavesBounded | ScreenDimmer/OptionsForm.cs:746-754 | The number of writes never exceeds the timer firings plus the exits. Without an exit, the writes plus a pending save never exceed the edits plus the save pending at the start. |
| Dimmer.EnabledNotSaved | ScreenDimmer/OptionsForm.cs:668-709 | The Enabled flags are not part of the settings file. Setting them leaves the saved document unchanged. |
| Dimmer.SwitchedStateRestorable | ScreenDimmer/OptionsForm.cs:735-744 | A state that is restorable in one mode stays restorable after the mode is switched and applied. |
| Dimmer.AssignGeometry | ScreenDimmer/OptionsForm.cs:475-480 | The four setters in DetectScreens' order give exactly Patch's record and outcome. Visibility is kept. |
| Dimmer.GrowBounds | ScreenDimmer/OptionsForm.cs:463-471 | The bounds only grow, they enclose the display, and they equal Extend of the old bounds. |
| Dimmer.IsAttached | ScreenDimmer/OptionsForm.cs:150-162 | True exactly when some live display has the name. |
| Dimmer.ReadOrigin | ScreenDimmer/OptionsForm.cs:117-118 | The basic record and the error are exactly LoadOrigin's. |
| Dimmer.ReadSize | ScreenDimmer/OptionsForm.cs:119-120 | The basic record and the error are exactly LoadSize's, with the 32-bit subtraction. |
| Dimmer.ReadLook | ScreenDimmer/OptionsForm.cs:121-123 | The basic record and the error are exactly LoadLook's. |
| Dimmer.OptionsForm.Blank | ScreenDimmer/OptionsForm.cs:86-91 | An empty list, the initial basic record hidden, aggregate mode, no save pending and nothing written. |
| Dimmer.OptionsForm.CreateDefault | ScreenDimmer/OptionsForm.cs:86-98 | Without a settings file, the list is DetectScreens from nothing in aggregate mode and the mode is applied. No save is pending, and exactly that state has been written once. |
| Dimmer.OptionsForm.DetectAndSave | ScreenDimmer/OptionsForm.cs:92-97 | Detection, then the mode applied and the timer idle. When detection succeeds the state is written once. |
| Dimmer.OptionsForm.FromDocument | ScreenDimmer/OptionsForm.cs:102-183 | When the document loads, the form holds the loaded records with the mode applied and writes nothing. When loading fails, it holds DetectScreens from an empty list, keeping the mode and basic record as far as they were read, and writes that once. |
| Dimmer.OptionsForm.Initialize | ScreenDimmer/OptionsForm.cs:180-182 | The mode is applied to every record and to the basic record, and no save is pending. |
| Dimmer.OptionsForm.Restore | ScreenDimmer/OptionsForm.cs:111-170 | The error, the mode, the basic record and the list are exactly what Load reads, and the records are fresh. |
| Dimmer.OptionsForm.FallBack | ScreenDimmer/OptionsForm.cs:172-178 | The list is cleared and rebuilt by DetectScreens. The result is written once when detection succeeds. |
| Dimmer.OptionsForm.ReadHeader | ScreenDimmer/OptionsForm.cs:110-133 | The mode, the basic record and the error are exactly LoadHeader's. The list stays empty. |
| Dimmer.OptionsForm.ScreenFromElement | ScreenDimmer/OptionsForm.cs:144-161 | The record built from one element is LoadElement's, on a fresh record. |
| Dimmer.OptionsForm.ReadScreenElement | ScreenDimmer/OptionsForm.cs:142-169 | One element's pass leaves the list as LoadElement does, with the same error. |
| Dimmer.OptionsForm.ReadScreenElements | ScreenDimmer/OptionsForm.cs:136-170 | The list and the error after the loop are exactly LoadScreens'. |
| Dimmer.OptionsForm.FindScreen | ScreenDimmer/OptionsForm.cs:413-436 | The position of the first record with the name, as Lookup gives it. |
| Dimmer.OptionsForm.NewIndex | ScreenDimmer/OptionsForm.cs:441-456 | The search loop returns LeastFreeIndex. |
| Dimmer.OptionsForm.NewScreenInfo | ScreenDimmer/OptionsForm.cs:369-381 | A fresh record for the display: not shown, DEFAULT_OPACITY, enabled in separate-screen mode, with its overlay hidden. |
| Dimmer.OptionsForm.PatchScreen | ScreenDimmer/OptionsForm.cs:418-431 | The record at the position becomes Patch's record, and no other record changes. |
| Dimmer.OptionsForm.AddScreen | ScreenDimmer/OptionsForm.cs:438-459 | Appends NewRecord with the least free index, and changes nothing else. |
| Dimmer.OptionsForm.VisitDisplay | ScreenDimmer/OptionsForm.cs:407-460 | One display's lookup, patch or append is exactly Place. |
| Dimmer.OptionsForm.VisitStep | ScreenDimmer/OptionsForm.cs:405-472 | One iteration of the outer foreach is exactly Visit, with the bounds. |
| Dimmer.OptionsForm.SweepDisplays | ScreenDimmer/OptionsForm.cs:401-472 | The outer foreach is exactly Sweep from the seed bounds, and stops at the first exception. |
| Dimmer.OptionsForm.DetectScreens | ScreenDimmer/OptionsForm.cs:399-489 | The list, the basic record and the outcome are exactly Detect's. Old records stay in place and new ones are fresh. |
| Dimmer.OptionsForm.RebuildBasic | ScreenDimmer/OptionsForm.cs:474-481 | The basic record is set as Rebuild says and the list is unchanged. |
| Dimmer.OptionsForm.ClearScreenList | ScreenDimmer/OptionsForm.cs:491-497 | Every record's overlay is closed, the records' values are kept, and the list is empty. |
| Dimmer.OptionsForm.SetScreensEnabled | ScreenDimmer/OptionsForm.cs:618-633 | Every record's Enabled flag is set and nothing else changes. |
| Dimmer.OptionsForm.ChangeTabs | ScreenDimmer/OptionsForm.cs:611-643 | The records are enabled exactly in separate-screen mode and the basic record exactly in aggregate mode. Nothing else changes. |
| Dimmer.OptionsForm.InitializeTimer | ScreenDimmer/OptionsForm.cs:350-357 | The timer is created idle and nothing is written. |
| Dimmer.OptionsForm.TriggerSave | ScreenDimmer/OptionsForm.cs:656-665 | An edit event: a save becomes pending and nothing is written. |
| Dimmer.OptionsForm.SaveSettings | ScreenDimmer/OptionsForm.cs:668-709 | Writes exactly the document Encode gives for the current state. |
| Dimmer.OptionsForm.SaveTimerElapsed | ScreenDimmer/OptionsForm.cs:814-819 | The elapsed event: the current state is written once and no save is pending. |
| Dimmer.OptionsForm.ExitButtonClicked | ScreenDimmer/OptionsForm.cs:746-754 | The exit event: the current state is written exactly when a save was pending. |
| Dimmer.OptionsForm.IndividualScreensCheckBoxClicked | ScreenDimmer/OptionsForm.cs:735-744 | Sets the mode, applies it to every record and to the basic record, and arms a save. |
| Dimmer.OptionsForm.DimmingCheckBoxClicked | ScreenDimmer/OptionsForm.cs:805-812 | Sets Show on the tab's record only, shows its overlay exactly when it is enabled, and arms no save. |
| Dimmer.OptionsForm.OpacityChanged | ScreenDimmer/OptionsForm.cs:773-795 | Sets the tab's record's opacity to percent / 100, changes no other record, and arms a save. |
| Dimmer.OptionsForm.UseDefaultButtonClicked | ScreenDimmer/OptionsForm.cs:756-763 | Closes every old record and rebuilds the list by DetectScreens from nothing. On success it applies the mode and arms a save. |
| Dimmer.OptionsForm.DetectScreensButtonClicked | ScreenDimmer/OptionsForm.cs:765-771 | DetectScreens on the current list. On success it applies the mode and arms a save. |

## Left out

- The window layout, tab pages, tray icon, help texts and the GitHub link. The per-screen
  tabs are rebuilt from the screen list (CreateScreenTabs) after every change that succeeds,
  so the model acts on the list's records directly. A handler is told which record its tab
  shows.
- Dimmer.OptionsForm.ChangeTabs, Dimmer.OptionsForm.DimmingCheckBoxClicked and
  Dimmer.OptionsForm.OpacityChanged: the model has no stale-tab state after a failed
  detection. When DetectScreens throws inside UseDefaultButtonClicked or
  DetectScreensButtonClicked, CreateScreenTabs is skipped and the tabs keep the old records.
  After UseDefaultButtonClicked those records are closed, so the next ChangeTabs, check box
  or opacity control throws a NullReferenceException. After DetectScreensButtonClicked, the
  next ChangeTabs leaves the records appended before the throw untouched. The model instead
  acts on the current screen list and succeeds.
- Integer overflow in display coordinates. The sums x + w and the differences right − left in
  DetectScreens are exact in the model. The operating system's display bounds are assumed
  never to overflow 32 bits.
- SettingsDocument.ParseReal: has no case for a number too large for a double. double.Parse throws an
  OverflowException on it, and a per-screen element would send the loader to the fallback.
  The model reads every number text as an exact real, which is then clamped.
- The opacity track bar's lower limit. A stored per-screen opacity in [0, 0.05) passes the
  loader (the clamp keeps it), and CreateScreenTab then sets a track bar whose minimum is 5
  to a value below it, which throws at start-up. The model holds no track bars.
- TranslucentForm and its native window styling, and Program.cs. The overlay is two fields
  of its record: it exists, and it is shown.
- Real timers and threads. The timer's interval of 15000 ms is a constant. Only the order of
  edit, elapsed and exit events is modelled.
- XML text parsing and file I/O. The settings file is a typed document, and SaveSettings
  appends the document it would write to `written`.
- A child element missing inside a present "options", "screen" or "basicScreen" element,
  separateScreens included. The source then throws a NullReferenceException; the typed
  document always has every child.
- The overlay window of a stored screen whose display is not attached. The loader creates it
  and drops the record without closing it. The model does not track such unreferenced
  overlays.
- The Cancel button of the error message box, which closes the application. The model
  follows the OK path, which continues with the state reached.
- Floating point. Opacity values are real numbers, so `double` rounding is not modelled.
- The screen count label that DetectScreens updates.
- OpacityNumericKeyDown. Its only effect on the model's state is TriggerSave.
- Dimmer.OptionsForm.SaveTimerElapsed: requires the save flag to be set, because the handler
  is subscribed only while the timer is armed. `Debounce.Next` makes an elapsed event with no
  save pending a no-op.
- Dimmer.OptionsForm.OpacityChanged: requires a percent in [5, 90], the range of the
  opacity controls.
- Behaviour of the code worth noting, which the model keeps:
  - The settings constructor clamps a stored opacity into [0, 0.9], not [0.05, 0.9].
  - The basic record's opacity is read through the checked setter, so an out-of-range value
    makes the load fail.
  - TriggerSave does not postpone a save that is already pending.
  - The aggregate record's size is checked against the same resolution bound as a single screen.
  - Every "screen" element is parsed in full before its display is checked, so a bad element
    for a detached display also sends the loader to the fallback.
  - DimmingCheckBoxClicked arms no save, so a Show change alone reaches the settings file only
    with a later save.
- Dimmer.OptionsForm.ScreenFromElement: sets Show before the record is appended, where the
  source appends first and parses the flag afterwards. Parsing has no side effect, so both
  orders end in the same state.
