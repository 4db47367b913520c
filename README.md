# Tower game automation script: verified model of the detector core

The script watches one window of an Android emulator and clicks on targets it
recognises in screenshots. This project models its decision logic in Dafny and
proves what that logic promises. The screenshots, the clicks and the OpenCV
numerics stay outside the model.

- `imaging.dfy` (module `Imaging`): the values the script handles: points,
  grayscale and BGRA images, window rectangles, match peaks. The OpenCV
  calls are fields of the `OpenCv` record (`matchPeak` for
  `matchTemplate` + `minMaxLoc` with `TM_CCOEFF_NORMED`, `warpPixels` for
  `warpAffine`, `toGray` for `cvtColor`). Their results are arbitrary, so
  every property below holds whatever OpenCV computes. This file also has
  the shared 0.8 acceptance threshold and the Python exceptions the core
  can raise.
- `image_processor.dfy` (module `ImageProcessor`, test.py): loading the
  pickled variant library, `precompute_templates` (rotated copies at
  `range(0, 360, step)`), `match_single_template`, and `parallel_matching`
  (an order-preserving map, then Python's `max` keyed on score).
- `automator.dfy` (module `Automator`, main.py): the `GameAutomator` class.
  Its constructor registers the fixed templates. The F1/F2/F3/Esc callbacks
  toggle the flags or stop. One pure function decides the clicks of one
  `detect` iteration, and the `detect` loop is proved against the function
  `Run`. The module also covers `click_target`, the `MAKELONG` packing and
  the messages `post_click` posts.
- `arithmetic.dfy` (module `Arithmetic`): division and multiplication
  facts for the angle count and the word packing.

Behaviours of the code that a reader might not expect, all modelled as the
code has them:
- Ties between equal best scores go to the first result in list order, as
  Python's `max` does. That is the lowest angle on any library that
  `precompute_templates` built (`TieBreakLowestAngle`,
  `PrecomputedAnglesIncrease`), but not on an arbitrary pickled list.
- A pickle file that exists but cannot be read raises. Only
  `FileNotFoundError` is caught, so only a missing file reads as an empty
  library.
- With the spinning detector on and an empty library, `max` raises
  `ValueError`. Nothing catches it, so `detect` ends instead of polling on.
  `Run` records the exception in `failure`.
- `range(0, 360, 0)` raises and a negative step gives no variant. Both are
  modelled.
- The spinning detector clicks the match's top-left corner. The fixed
  detectors click the template's centre.
- `precompute_templates` writes to the fixed path `processed_templates.pkl`,
  not to the processor's configured path. It does not update the processor's
  own `templates_list`.

## Model

| member | source | states |
|---|---|---|
| `ImageProcessor.LoadProcessedTemplates` | test.py:11-16 | a missing file gives the empty list; a stored list comes back as stored; only an unreadable file is an error |
| `ImageProcessor.NewProcessor` | test.py:7-9 | construction fails exactly when the file is unreadable; a missing file gives a processor with no variants; otherwise `templates_list` is the loaded list |
| `ImageProcessor.Angles` | test.py:27 | `range(0, 360, step)` fails exactly for a zero step and is empty for a negative step |
| `ImageProcessor.Range` | test.py:27 | every element of `range(start, stop, step)` lies in [start, stop); it is empty exactly when start >= stop; it starts at start and each next element is step further |
| `ImageProcessor.RangeLength` | test.py:27 | a positive-step range has ceil((stop - start) / step) elements |
| `ImageProcessor.RangeAt` | test.py:27 | the k-th element of the range is start + k * step |
| `ImageProcessor.RangeIncreasing` | test.py:27 | the elements strictly increase (no duplicate angle) |
| `ImageProcessor.RangeComplete` | test.py:27 | every start + k * step below stop is an element (no gap) |
| `ImageProcessor.AnglesCoverCircle` | test.py:27 | the angles are exactly 0, step, 2 * step, ... below 360, strictly increasing, ceil(360 / step) of them, and every multiple of step below 360 is present |
| `ImageProcessor.AnglesCountWhenDivides` | test.py:27 | when step divides 360 there are exactly 360 / step angles |
| `ImageProcessor.RotationCentre` | test.py:23-24 | the rotation centre `(w // 2, h // 2)` is the template's middle pixel |
| `Imaging.WarpAffine` | test.py:30 | the rotated image has the requested `(w, h)` canvas |
| `ImageProcessor.RotatedVariant` | test.py:28-34 | each variant carries its angle and keeps the template's `(w, h)` canvas |
| `ImageProcessor.PrecomputeTemplates` | test.py:18-39 | a template that did not load and a zero step are errors; otherwise one variant per angle of `range(0, 360, step)`, in order, each the template rotated about its centre on its own canvas; loading the saved file gives the same list back |
| `ImageProcessor.MatchSingleTemplate` | test.py:41-46 | the result keeps the variant's angle and takes the matcher's maximum score and its location |
| `ImageProcessor.MatchAll` | test.py:53-57 | one result per variant, in variant order |
| `ImageProcessor.MaxByScore` | test.py:60 | `max(..., key=score)` returns the element at the first position of maximal score: no score exceeds it and every earlier one is strictly lower |
| `ImageProcessor.KeepBest` | test.py:60 | the scan of `max` from a current best returns that best or one of the remaining results, scoring at least the current best and no lower than any remaining result |
| `ImageProcessor.FirstBestUnique` | test.py:60 | that position is unique, so the reduction is determined by the scores and their order |
| `ImageProcessor.ParallelMatching` | test.py:48-61 | an empty library raises; otherwise the result is the match of the first variant whose score is maximal over all variants |
| `ImageProcessor.TieBreakLowestAngle` | test.py:60 | on a library of increasing angles, the winner's angle is at most that of any variant with the same score |
| `ImageProcessor.PrecomputedAnglesIncrease` | test.py:27-34 | the library `precompute_templates` builds has strictly increasing angles |
| `Automator.Apply` | main.py:50-63 | no callback sets the running flag; stop clears it; toggles leave it unchanged |
| `Automator.ToggleFlipsOnlyItsFlag` | main.py:50-60 | a toggle flips its own detector's flag and leaves the other two and the running flag unchanged |
| `Automator.ToggleTwiceRestores` | main.py:50-60 | toggling the same detector twice restores the flags |
| `Automator.ApplyAll` | main.py:50-63 | callbacks apply in order; a sequence of toggles alone leaves the running flag as it was |
| `Automator.NeverRestarts` | main.py:62-63 | after any sequence of callbacks, running implies it was running before |
| `Automator.StopIsFinal` | main.py:62-63 | after any sequence of callbacks that contains a stop, the automator is stopped |
| `Automator.Register` | main.py:34-40 | every registered template stores its image's own width and height; `RegisterAt` and `RegisterExactlyLoaded` state which names are registered |
| `Automator.RegisterAt` | main.py:35-40 | a target is registered exactly when its image loaded, with that image, its width and its height |
| `Automator.RegisterNotNamed` | main.py:35-40 | a name that no target carries is not registered |
| `Automator.RegisterExactlyLoaded` | main.py:34-40 | the registered names are exactly the targets whose image loaded, each with its image and size |
| `Imaging.Accepted` | main.py:137 | a score is accepted only when strictly above 0.8; the contracts of `SpinningClick` and `FixedClick` state this for each detector |
| `Automator.Center` | main.py:150-152 | the fixed-template click lies inside the matched box, at its middle pixel |
| `Automator.FixedClick` | main.py:143-155 | a fixed detector clicks at most once, and does so exactly when its flag is set, its template is registered and the score is strictly above 0.8; the click is at the match's centre |
| `Automator.SpinningClick` | main.py:135-140 | the spinning detector raises exactly when it is on and the library is empty; otherwise it clicks at most once, exactly when some variant scores above 0.8, at the top-left of the first best match |
| `Automator.DetectOnce` | main.py:126-168 | without a frame nothing is clicked and nothing raises; an iteration raises only when the spinning detector is on and the library is empty; at most three clicks |
| `Automator.DetectOnceInCheckOrder` | main.py:134-168 | the clicks come in the order spinning, fixed gem, restart button; a detector whose flag is clear contributes nothing; each detector's contribution depends only on its own flag |
| `Automator.Run` | main.py:123-169 | the loop never sets the running flag again, makes at most three times as many `post_click` calls as there are ticks (the per-iteration bound of three is `DetectOnce`'s; a call posts nothing when `FindWindow` fails), and can end on an exception only when the library is empty and the exception is the `ValueError` of `max` |
| `Automator.RunWhenStopped` | main.py:124 | a stopped automator posts nothing and keeps its flags |
| `Automator.StopEndsLoop` | main.py:62-63 | once a stop fires during the sleep after iteration k, nothing scheduled in a later tick has any effect (callbacks later in that same sleep still apply), and the loop ends stopped unless it raised |
| `Automator.MissingWindowContained` | main.py:126-130 | an iteration without a frame only lets the callbacks of its sleep take effect; the loop carries on |
| `Automator.ClickTarget` | main.py:66-73 | the screen point minus the window's top-left corner is the window point |
| `Automator.MakeLong` | main.py:89-91 | the packed word fits in 32 bits, with x's low 16 bits in the low word and y's low 16 bits in the high word |
| `Automator.MakeLongRoundTrip` | main.py:89-91 | coordinates in [0, 65536) are recovered exactly from the packed word |
| `Automator.MakeLongInjective` | main.py:89-91 | distinct in-range coordinates give distinct packed words |
| `Automator.PostClick` | main.py:81-96 | a zero window handle (no window found) posts nothing; otherwise a left-button press (`MK_LBUTTON`), then a release, to that window, both carrying `MAKELONG(x, y)` |
| `Automator.GameAutomator.constructor` | main.py:23-40 | once `image_processor()` has loaded the pickle file: all detectors off and running; the processor holds the loaded library; the templates are the registered loaded targets |
| `Automator.GameAutomator.Create` | main.py:23-40 | `GameAutomator(...)` raises exactly when `image_processor()` raises, on an unreadable pickle file; otherwise the new automator is the constructor's |
| `Automator.GameAutomator.ToggleSpinning` | main.py:50-52 | F1 applies `Toggle(Spinning)` to the flags |
| `Automator.GameAutomator.ToggleStatic` | main.py:54-56 | F2 applies `Toggle(FixedGem)` to the flags |
| `Automator.GameAutomator.ToggleRestart` | main.py:58-60 | F3 applies `Toggle(RestartBtn)` to the flags |
| `Automator.GameAutomator.StopAll` | main.py:62-64 | Esc clears the running flag and nothing else |
| `Automator.GameAutomator.Handle` | main.py:42-45 | a hotkey callback applies its command to the flags |
| `Automator.GameAutomator.HandleAll` | main.py:42-45 | the callbacks fired during one sleep apply in order |
| `Automator.GameAutomator.Detect` | main.py:123-169 | the loop posts exactly the clicks of `Run` from the initial flags, ends with its flags, and raises its exception, if any |

## Left out

- Screen capture (`get_screenshot_opencv`, main.py:100-121) is I/O. Each iteration instead receives an optional `Capture`, and `None` means the window was not found.
- `FindWindow`, `PostMessage`, `pyautogui` moves and clicks are OS calls. `PostClick` takes the `FindWindow` result (0 when no window matches) as a parameter and returns the messages it would post.
- Hotkey registration (`keyboard.add_hotkey`) and the DPI-awareness calls are platform calls. The callbacks are plain methods, and `Detect` applies the callbacks that fire during each sleep from its schedule of `Tick`s.
- Detect: the source loop is unbounded and reads each flag at the moment it checks that detector. The model runs over a finite schedule, stops when the schedule ends, and applies callbacks only between iterations. A toggle that lands in the middle of an iteration is not modelled.
- The `ThreadPoolExecutor` fan-out and `max_workers` are concurrency. `executor.map` returns results in input order, so the map is modelled serially.
- OpenCV numerics (`imread`, `cvtColor`, `matchTemplate`, `minMaxLoc`, `getRotationMatrix2D`, `warpAffine`) are floating-point library code. They are uninterpreted operations, and the rotation matrix is kept symbolic.
- OpenCV and win32 failures are not modelled: the OpenCV operations are total and `PostMessage` always succeeds. In the code, `matchTemplate` raises when a template is larger than the frame (main.py:146, main.py:160, test.py:44) and `PostMessage` can raise (main.py:94).
- DetectOnce: "an iteration raises only when the spinning detector is on and the library is empty" holds only under the assumption above that OpenCV does not raise; the same goes for the failure clause of `Run`.
- GameAutomator.constructor: requires a pickle file that loads, since a Dafny constructor cannot raise; `GameAutomator.Create` models the `__init__` call including the unpickling error raised by `image_processor()` (main.py:25).
- Scores are Dafny reals. Floating-point rounding and NaN scores are not modelled.
- Pickle serialisation and file writes are I/O. The file is a `PickleFile` value: missing, stored or unreadable.
- MakeLong: the packed word is modelled as an unsigned 32-bit value. pywin32 hands it back as a signed `LONG`, which has the same bit pattern but is negative when y's bit 15 is set.
- Drawing (`draw_result`, `draw_rotated_result`, `get_result`) and both `__main__` blocks are visualisation and demo code.
- `time.sleep`, timestamps and `print` output do not affect any decision.
