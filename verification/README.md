# Opaleye verification

A Dafny model of the parts of Opaleye, a camera and sensor server, whose correctness is not
visible from one function: the URI dispatch trie, the hardware trigger chain from the
application down to the kernel timers, the pressure sensor arithmetic, the recording file
allocator, the V4L2 buffer protocol, the V4L2 control index and the thumbnail page flip.
`dafny verify dfyconfig.toml` checks everything.

| file | models |
|---|---|
| `DirectoryTree.dfy`, `HttpDispatch.dfy`, `PathUtil.dfy` | the mutable path trie, handler lookup over whole registration histories, `is_parent_path` |
| `Chrono.dfy`, `TriggerText.dfy`, `GpioTrigger.dfy` | duration conversions, the text protocol to the kernel module, its two timers |
| `Ms5837.dfy` | pressure compensation in 32- and 64-bit words |
| `Recorder.dfy` | file names, the index scan and the capture registry |
| `V4l2Stream.dfy`, `V4l2Controls.dfy` | buffer ownership, control enumeration |
| `Thumbnail.dfy` | rate limiting, page flip beside concurrent readers |
| `CInt.dfy`, `DecimalText.dfy`, `Wrappers.dfy` | C integer operators, decimal text, result types |

Objects that the source updates in place are classes whose methods are proved equal to a step
function on a value that describes the object; the theorems are about all runs of those steps.
Clocks, ioctl outcomes, directory listings, callback outcomes and the JPEG codec are parameters.

Main results:

- After any registrations the heap trie is a flat map of its history, and dispatch is told by that
  history alone (`TrieIsHistory`, `ExactByHistory`, `DispatchByHistory`, `DispatchSound`).
- The kernel parser undoes the user-space printer exactly where the printed form is acceptable
  (`ConfigureRoundTrip`), and after the start-up sequence of the application, from any state of the
  module, the level of the pins is known at every later time for prompt callbacks: the pulse train
  of the durations asked for, from the start asked for, except that a pulse under way when the module is enabled, unless it
  is the first, is missed (`StartupPulse`, `TrainFollowed`).
- Trigger phase is kept over every run, however late callbacks are (`EveryRun`, `EveryCallback`), and
  the pins keep to the pulse train within the latency exactly when the latency is below both phases
  of the pulse (`LatePulse`, `LatencyBound`).
- The compensation never overflows and equals its integer specification (`CalcPressure`), which is
  within 1 + 10/8192 of the exact rational pressure (`PressureError`); in each temperature range the
  second-order pressure and temperature are within a stated bound of the data sheet's formulas
  (`SecondPressureError`, `SecondTempError`).
- No run of the recorder hands out the name of an existing file while the first index plus the number
  of the fragment, not wrapped to 32 bits, is at most 999999; for every greater total some run does
  (`NeverOverwrites`, `LongIndexReused`, `TotalSafe`). Two fragments of a directory never share a name
  while the first file is there (`NamesNeverRepeat`), and a directory that starts empty holds exactly
  the files 0 to n - 1 after n fragments, over any stops, starts and restarts (`DirectoryNumbered`).
- Every buffer is accounted for in every streaming run, each swallowed exception loses exactly one,
  and a restart recovers all exactly when no callback running at the stop gives its buffer back
  before the start (`Circulation`, `RestartRecovers`). Until then the callback never runs again
  exactly once as many buffers have been lost as there are (`Starvation`).
- The callback sees exactly the metadata of its frame, buffers take turns after a start, and none goes
  back to the driver with old metadata (`CallbackSees`, `RoundRobin`, `EveryRunClean`).
- The control index holds exactly the non-compound controls from the base up, with complete menus for
  exactly the menu controls (`ProbeCtrl`, `LookupById`, `LookupByName`).
- Readers see only whole published thumbnails in every interleaving (`ReadersSeeWholeImages`), and
  the thumbnail stage publishes by exactly those steps (`DownsampleJpeg`).

Where the code differs from its comments, or from what a caller may expect; the model follows the code:

- `PARENT_PATH` does not climb: it looks only into the directory of the longest part of the URI
  that is in the trie, so registering a path can hide an outer directory (`DirectoryLookup`,
  `RegistrationShadows`).
- A trigger start in the past is not aligned: both timers fire at once, so the pins can stay low
  for the rest of a pulse (`PastStart`); the exact condition is `TrainFollowed`.
- A negative duration written by hand, such as "-1.5", means half a second before the epoch: the
  fraction is added to the seconds (`HandWritten`, `NegativeByHand`).
- A start under a running callback clears the metadata that the callback may still read
  (`RestartDuringCallback`).
- `stop_streaming` does not wait for a running callback, as its TODO says; a callback that returns
  between stop and start makes the start fail (`RestartAccepted`, `ReturnInsideStart`).
- `is_parent_path` compares character lengths first. With repeated slashes in the request the loop
  can read past its end; the contract of `IsParentPath` says exactly when, and `CanonicalParent`
  shows that canonical paths are safe.
- The scan of existing recordings asks for `.mp4` while the files are named `.avi`; the suffix is
  not part of what `sscanf` counts, so `.avi` files are found.
- `sscanf` accepts a sign, so a file named `file--1.avi` scans as 2^32 - 1 and a recording beside it
  starts at 0 (`SignedStart`, `WrappedReuse`).
- A callback that throws keeps its buffer: the worker logs and goes on, and after as many exceptions
  as there are buffers no frame arrives until a restart (`ExceptionsStarve`).
- The pressure formula in the comment of `calc_pressure` is parenthesised differently from the code.
- In `calc_pressure` the temperature quotient has an unsigned divisor and therefore rounds down;
  all other quotients truncate.

## Model

| member | source | states |
|---|---|---|
| `DirectoryTree.Node.constructor` | libs/opaleye-util/include/opaleye-util/path/Directory_tree_node.hpp:143-148 | a node records its parent, its full path and the last element as its name |
| `DirectoryTree.Node.CreateChild` | libs/opaleye-util/include/opaleye-util/path/Directory_tree_node.hpp:86-95 | a fresh child knows its parent and path, and is entered under its name unless the name is taken |
| `DirectoryTree.Tree.constructor` | libs/opaleye-util/include/opaleye-util/path/Directory_tree.hpp:16-19 | a new trie is well linked and holds only the root, without data |
| `DirectoryTree.GrowLinks` | libs/opaleye-util/include/opaleye-util/path/Directory_tree.hpp:59-63 | hanging a missing leaf under its parent keeps every stored path, parent and child link in agreement with the node positions |
| `DirectoryTree.Tree.Descend` | libs/opaleye-util/include/opaleye-util/path/Directory_tree.hpp:57-65 | one turn of the loop reaches the next position, creating it without data only if missing; all existing nodes stay |
| `DirectoryTree.Tree.Walk` | libs/opaleye-util/include/opaleye-util/path/Directory_tree.hpp:52-66 | the loop adds exactly the missing prefixes of the path, without data, and ends at the path |
| `DirectoryTree.Tree.SetNode` | libs/opaleye-util/include/opaleye-util/path/Directory_tree.hpp:40-74 | throws on relative paths, returns null off the root, otherwise the flat view gains the missing prefixes and the data at the path, and nothing else changes |
| `DirectoryTree.PrefixClosed` | libs/opaleye-util/include/opaleye-util/path/Directory_tree.hpp:55-66 | every prefix of a node's position is a node's position |
| `DirectoryTree.WalkStops` | libs/opaleye-util/include/opaleye-util/path/Directory_tree.hpp:88-102 | a walk that cannot go on stands at the longest prefix that exists |
| `DirectoryTree.Tree.ChildAt` | libs/opaleye-util/include/opaleye-util/path/Directory_tree_node.hpp:97-106 | looking up a child by name finds the node at the extended position, or null exactly when there is none |
| `DirectoryTree.Tree.Search` | libs/opaleye-util/include/opaleye-util/path/Directory_tree.hpp:88-102 | the search loop ends at the node of the longest existing prefix of the query |
| `DirectoryTree.Tree.FindMatch` | libs/opaleye-util/include/opaleye-util/path/Directory_tree.hpp:76-141 | EXACT finds the node at the query or nothing; PARENT_PATH finds it too, and otherwise the "." child of the longest existing prefix or nothing; throws exactly for relative queries and, on rooted ones, for any other mode |
| `HttpDispatch.TrieIsHistory` | libs/opaleye-util/include/opaleye-util/path/Directory_tree.hpp:40-141 | after any calls the positions are exactly the root and the prefixes of registered paths, each with the data last set there or none |
| `HttpDispatch.ExactByHistory` | libs/opaleye-util/include/opaleye-util/path/Directory_tree.hpp:122-130 | after any calls, an exact search finds a node for a path iff it is the root or a prefix of a registered path, and the node holds the data last set there |
| `HttpDispatch.HttpFcgiServer.RegisterCbForDocUri` | libs/http-bridge/http_fcgi_svr.cpp:103-106 | the trie stays equal to the registration history extended by this call; relative URIs throw |
| `HttpDispatch.HttpFcgiServer.GetCbForDocUri` | libs/http-bridge/http_fcgi_svr.cpp:107-126 | the answer is the one the registration history determines |
| `HttpDispatch.DispatchByHistory` | libs/http-bridge/http_fcgi_svr.cpp:103-126 | for every history and URI: the last callback of the URI if it is in the trie, else the last callback of the directory of its longest prefix, else none |
| `HttpDispatch.DispatchSound` | libs/http-bridge/http_fcgi_svr.cpp:107-126 | a returned callback is in force for the URI itself or for a directory that contains it |
| `HttpDispatch.DirectoryLookup` | libs/opaleye-util/include/opaleye-util/path/Directory_tree.hpp:93-100 | the innermost registered directory serves a URI iff the trie holds no longer part of the URI; otherwise nothing does |
| `HttpDispatch.RegistrationShadows` | libs/opaleye-util/include/opaleye-util/path/Directory_tree.hpp:93-100 | a concrete registration after which an outer directory no longer serves a URI |
| `PathUtil.IsParentPath` | libs/opaleye-util/include/opaleye-util/path/Path_util.hpp:21-69 | for all paths, exactly when it throws, answers yes, and reads past the request |
| `PathUtil.LengthGuard` | libs/opaleye-util/include/opaleye-util/path/Path_util.hpp:43-49 | on canonical paths the character lengths decide every comparison that could overrun |
| `PathUtil.CanonicalParent` | libs/opaleye-util/include/opaleye-util/path/Path_util.hpp:21-69 | canonical paths never overrun, and the answer is yes iff the base is an element prefix or a directory properly containing the request |
| `PathUtil.RepeatedSlashes` | libs/opaleye-util/include/opaleye-util/path/Path_util.hpp:43-66 | a non-canonical request that the guard lets overrun |
| `PathUtil.DispatchedIsParent` | libs/http-bridge/http_fcgi_svr.cpp:107-126 | a dispatched callback was registered for a parent path of the request |
| `Chrono.TimespecSplit` | libs/opaleye-util/chrono_util.cpp:24-37 | splitting and joining returns every duration, with parts of one sign, normalised iff non-negative or whole seconds |
| `Chrono.TimespecJoin` | libs/opaleye-util/chrono_util.cpp:24-37 | joining and splitting returns a timespec iff its parts are in range and of one sign |
| `Chrono.TimevalSplit` | libs/opaleye-util/chrono_util.cpp:9-22 | the same round trip for microseconds |
| `Chrono.TimevalJoin` | libs/opaleye-util/chrono_util.cpp:9-22 | the exact timevals for which the opposite round trip holds |
| `Chrono.TimespecAddChrono` | libs/opaleye-util/chrono_util.cpp:39-61 | the total is the exact sum for all inputs, one carry or borrow keeps normalised inputs normalised, and exactly when the result is normalised |
| `Chrono.AddChronoFits` | libs/opaleye-util/chrono_util.cpp:43-58 | in 64-bit words the parts and the nanosecond sum always fit, and the seconds do away from the ends of the range |
| `TriggerText.NsstrToNs` | modules/opaleye_gpio/opaleye_gpio_main.c:212-226 | n digits up to nine give value times 10^(9-n); further digits are ignored |
| `TriggerText.ScanPrintedInt` | modules/opaleye_gpio/opaleye_gpio_main.c:250-254 | `%ld` reads back any printed 64-bit integer and stops after it |
| `TriggerText.ScanPrintedDuration` | opaleye/Opaleye_gpio_mod_ctrl.cpp:101-108 | a printed duration is read back, or refused when its fraction is negative |
| `TriggerText.StoredDuration` | modules/opaleye_gpio/opaleye_gpio_main.c:263-276 | the kernel time computed from the scanned fields is the duration, saturating as `ktime_set` does |
| `TriggerText.ConfigureRoundTrip` | opaleye/Opaleye_gpio_mod_ctrl.cpp:99-111 | for all 64-bit triples the line is accepted iff each duration is non-negative or whole seconds, and then stored to the nanosecond, saturating as `ktime_set` does |
| `TriggerText.DurationText` | opaleye/Opaleye_gpio_mod_ctrl.cpp:101-108 | a duration that is not negative is printed as whole seconds, a point and the nine digits of the rest |
| `TriggerText.HandWritten` | modules/opaleye_gpio/opaleye_gpio_main.c:246-276 | any three fields of blanks, whole seconds and one to nine fraction digits, separated by commas, are accepted whatever follows, each stored as seconds plus fraction, saturating |
| `TriggerText.NegativeByHand` | modules/opaleye_gpio/opaleye_gpio_main.c:263-276 | below zero a written fraction still counts upward from the seconds |
| `GpioTrigger.GpioModule.constructor` | modules/opaleye_gpio/opaleye_gpio_main.c:403-412 | the initial state |
| `GpioTrigger.GpioModule.EnableStore` | modules/opaleye_gpio/opaleye_gpio_main.c:141-205 | the new state is the enable step of the old one |
| `GpioTrigger.GpioModule.TimerSettingsStore` | modules/opaleye_gpio/opaleye_gpio_main.c:228-282 | the new state is the settings step of the old one |
| `GpioTrigger.GpioModule.OnTimerCb` | modules/opaleye_gpio/opaleye_gpio_main.c:68-90 | the new state is the rising-edge step of the old one |
| `GpioTrigger.GpioModule.OffTimerCb` | modules/opaleye_gpio/opaleye_gpio_main.c:92-114 | the new state is the falling-edge step of the old one |
| `GpioTrigger.ForwardGrid` | modules/opaleye_gpio/opaleye_gpio_main.c:81-81 | the next expiry is congruent to the old one and lies in (now, now + period] for any latency, where the period is raised to at least one nanosecond |
| `GpioTrigger.EveryRun` | modules/opaleye_gpio/opaleye_gpio_main.c:68-205 | over every run: enabled iff both timers are armed, the two pins agree, and every expiry keeps the phase of the latest start |
| `GpioTrigger.EveryCallback` | modules/opaleye_gpio/opaleye_gpio_main.c:68-114 | every callback of every run leaves its timer armed in (now, now + period], the period raised to at least one nanosecond, sets its level and changes nothing else |
| `GpioTrigger.LevelFrames` | modules/opaleye_gpio/opaleye_gpio_main.c:155-201 | over all runs at one level the timing never changes while armed and the pins never change while disabled |
| `GpioTrigger.RepeatedWrites` | modules/opaleye_gpio/opaleye_gpio_main.c:157-200 | writing the level already held is a no-op, no write moves a pin, settings are refused while enabled |
| `GpioTrigger.EnableText` | modules/opaleye_gpio/opaleye_gpio_main.c:143-155 | any 64-bit number written asks for the level that its low 32 bits are not zero; text without a number is refused |
| `GpioTrigger.SetEnableText` | opaleye/Opaleye_gpio_mod_ctrl.cpp:79-98 | what `set_enable` writes is parsed back as the level given |
| `GpioTrigger.AutomaticStart` | modules/opaleye_gpio/opaleye_gpio_main.c:168-181 | without a configured start, the start is the one whole second at least 0.25 s and less than 1.25 s away |
| `GpioTrigger.ChosenStart` | modules/opaleye_gpio/opaleye_gpio_main.c:165-189 | the start is the configured one, or without one the automatic whole second |
| `GpioTrigger.PromptRun` | modules/opaleye_gpio/opaleye_gpio_main.c:68-114 | once no timer is overdue, exact callbacks in time order follow the pulse train after any number of edges |
| `GpioTrigger.PromptPulse` | modules/opaleye_gpio/opaleye_gpio_main.c:165-191 | enabled at any time, before or after the configured or automatic start, with callbacks at their expiry or at once if overdue: the level of both pins at every later time |
| `GpioTrigger.NarrowPulse` | modules/opaleye_gpio/opaleye_gpio_main.c:186-189 | for a width below the period the train is high at t exactly when (t - start) mod period < width |
| `GpioTrigger.TrainFollowed` | modules/opaleye_gpio/opaleye_gpio_main.c:182-189 | the pins follow the train from the first moment on iff the module is enabled before the first falling edge or between two pulses |
| `GpioTrigger.TrainResumes` | modules/opaleye_gpio/opaleye_gpio_main.c:81-81 | a late enable costs at most the rest of one period: from the next rising edge on the train is followed |
| `GpioTrigger.PastStart` | modules/opaleye_gpio/opaleye_gpio_main.c:182-189 | a concrete past start that misses its pulse |
| `GpioTrigger.LatePulse` | modules/opaleye_gpio/opaleye_gpio_main.c:68-114 | over every run with callbacks late by at most a latency below both phases, writes included: where the train has held its level for the latency both pins are at it |
| `GpioTrigger.LatencyBound` | modules/opaleye_gpio/opaleye_gpio_main.c:68-191 | for a width below the period and a start not in the past: high from latency to width and low from width + latency to the period, in every such run, iff the latency is below both the width and the rest of the period |
| `GpioTrigger.SwappedHigh` | modules/opaleye_gpio/opaleye_gpio_main.c:92-114 | for every latency from the width on, a run in which the falling edge comes first and the pins stay high through the low phase |
| `GpioTrigger.SwappedLow` | modules/opaleye_gpio/opaleye_gpio_main.c:68-90 | for every latency from the low phase on, a run in which a falling edge comes after the next rising edge and the pins stay low through the pulse |
| `GpioTrigger.StartupPulse` | opaleye/Opaleye_app.cpp:698-717 | disable, configure, enable from any state stores the requested durations, and gives the level of the pins at every later time from the requested start, or from the one whole second 0.25 s to 1.25 s away if none is requested |
| `GpioTrigger.DefaultPulse` | modules/opaleye_gpio/opaleye_gpio_main.c:403-405 | as loaded and enabled, the pins are high for exactly the first tenth of every second of the clock from the automatic start on |
| `Ms5837.AssembleSample` | libs/sensors/MS5837-30BA.cpp:59-63 | the assembled sample has 24 bits and each byte can be read back |
| `Ms5837.UnsignedQuotient` | libs/sensors/MS5837-30BA.cpp:146-146 | signed product over unsigned constant, narrowed, is division rounded down |
| `Ms5837.FirstOrderBounds` | libs/sensors/MS5837-30BA.cpp:145-151 | bounds of all first-order products and sums |
| `Ms5837.SecondOrderBounds` | libs/sensors/MS5837-30BA.cpp:178-181 | bounds of the corrected offset, sensitivity and product |
| `Ms5837.Corrections` | libs/sensors/MS5837-30BA.cpp:154-176 | the branch-assigned terms equal the specified corrections, without overflow |
| `Ms5837.CalcPressure` | libs/sensors/MS5837-30BA.cpp:136-189 | for all 24-bit samples and 16-bit words no word overflows and the result is the integer specification, whose meaning the error bounds below give |
| `Ms5837.BranchThresholds` | libs/sensors/MS5837-30BA.cpp:157-164 | the truncating tests switch exactly at TEMP < 2000 and TEMP <= -1600 |
| `Ms5837.PressureError` | libs/sensors/MS5837-30BA.cpp:148-151 | P1 is within 1 + 10/8192 of the exact rational pressure |
| `Ms5837.TempError` | libs/sensors/MS5837-30BA.cpp:145-146 | TEMP is the exact rational temperature rounded down |
| `Ms5837.OffCorrectionError` | libs/sensors/MS5837-30BA.cpp:157-176 | in each range the offset correction is within 1 of the data sheet's formula |
| `Ms5837.SensCorrectionError` | libs/sensors/MS5837-30BA.cpp:157-176 | in each range the sensitivity correction is within 1 of the data sheet's formula, and zero from 20 degrees on |
| `Ms5837.SecondTempError` | libs/sensors/MS5837-30BA.cpp:157-180 | the second-order temperature is within 1.01 of (TEMP - 2 dT^2 / 2^37) / 100 from 20 degrees on and of (TEMP - 3 dT^2 / 2^33) / 100 below |
| `Ms5837.SecondPressureError` | libs/sensors/MS5837-30BA.cpp:154-181 | the second-order pressure is within 1 + 19/81920 of the exact one with the data sheet's corrections, for TEMP >= 2000, -1600 < TEMP < 2000 and TEMP <= -1600 |
| `Ms5837.TempMonotone` | libs/sensors/MS5837-30BA.cpp:145-146 | temperature is non-decreasing in its sample |
| `Ms5837.P2Monotone` | libs/sensors/MS5837-30BA.cpp:178-181 | P2 moves with d1 in the direction of the sign of SENS2 |
| `Ms5837.CorrectionsVanish` | libs/sensors/MS5837-30BA.cpp:157-176 | both pressure corrections are zero iff 2000 <= TEMP <= 2003, and never negative |
| `Ms5837.SecondOrderPressure` | libs/sensors/MS5837-30BA.cpp:181-181 | there P2 is P1/10 truncated, and always the nested divisions are one by 81920 |
| `Recorder.ScanDirectory` | libs/camera-pipes/pipeline/storage/mp4_splitmuxsink.cpp:58-76 | the scan loop computes the maximum, over the regular files it can parse, of one more than the scanned index |
| `Recorder.ScanBounds` | libs/camera-pipes/pipeline/storage/mp4_splitmuxsink.cpp:66-75 | the start index is at least one more, in 32 bits, than the index scanned from any regular file |
| `Recorder.ScanAttained` | libs/camera-pipes/pipeline/storage/mp4_splitmuxsink.cpp:66-75 | a non-zero start index is one more, in 32 bits, than the index scanned from some regular file |
| `Recorder.ScanText` | libs/camera-pipes/pipeline/storage/mp4_splitmuxsink.cpp:70-70 | a name of the literal, blanks, an optional sign and digits is scanned as its number in 32 bits, up to six characters |
| `Recorder.ScanParts` | libs/camera-pipes/pipeline/storage/mp4_splitmuxsink.cpp:70-70 | no other name is scanned |
| `Recorder.ScanExact` | libs/camera-pipes/pipeline/storage/mp4_splitmuxsink.cpp:70-70 | a printed name is scanned back exactly up to index 999999 |
| `Recorder.ScanShort` | libs/camera-pipes/pipeline/storage/mp4_splitmuxsink.cpp:70-70 | beyond, at most a tenth of the index is read |
| `Recorder.IndexSafe` | libs/camera-pipes/pipeline/storage/mp4_splitmuxsink.cpp:59-76 | an index is fresh after every scan that starts at or below it iff it has at most six digits |
| `Recorder.OpaleyeApp.StartVideoCapture` | opaleye/Opaleye_app.cpp:768-829 | starts iff the camera is known, not recording and the pipeline comes up; then registers a capture that starts at the scanned index, and changes nothing else |
| `Recorder.OpaleyeApp.StopVideoCapture` | opaleye/Opaleye_app.cpp:830-871 | removes exactly the capture of the camera, or reports why not |
| `Recorder.OpaleyeApp.HandleFormatLocation` | libs/camera-pipes/pipeline/storage/mp4_splitmuxsink.cpp:136-144 | names the next fragment in 32-bit arithmetic; its file is then in the directory beside all that was there, and no other directory changes |
| `Recorder.NeverOverwrites` | libs/camera-pipes/pipeline/storage/mp4_splitmuxsink.cpp:136-144 | over every run, with any initial disk, deletions and restarts: a fragment whose first index plus number, not wrapped, is at most 999999 gets a fresh name, and captures never share a directory |
| `Recorder.FragmentCreates` | libs/camera-pipes/pipeline/storage/mp4_splitmuxsink.cpp:136-144 | a fragment leaves its file in its directory beside all that was there, and changes no other directory |
| `Recorder.HandedOutStays` | libs/camera-pipes/pipeline/storage/mp4_splitmuxsink.cpp:136-144 | over every run, the file of a fragment is there until somebody deletes it |
| `Recorder.NamesNeverRepeat` | libs/camera-pipes/pipeline/storage/mp4_splitmuxsink.cpp:59-144 | over every run, stops, starts and restarts included, two fragments of one directory have different names if the later total is at most 999999 and the earlier file was not deleted |
| `Recorder.DirectoryNumbered` | libs/camera-pipes/pipeline/storage/mp4_splitmuxsink.cpp:59-144 | over every run, a directory that starts empty and is not deleted from holds exactly files 0 to n - 1 after n fragments, and a capture into it goes on with n, up to a million |
| `Recorder.RestartForgets` | opaleye/Opaleye_app.cpp:768-829 | a restarted process has no captures and the same disk, and its cameras can record |
| `Recorder.RecordingConsecutive` | opaleye/Opaleye_app.cpp:779-785 | over every run until its own stop or a restart, a recording keeps its directory and first index, second starts included, and its files are numbered consecutively |
| `Recorder.NextRecordingContinues` | opaleye/Opaleye_app.cpp:768-871 | stop then start on one day continues above every six-digit file still present |
| `Recorder.LongIndexReused` | libs/camera-pipes/pipeline/storage/mp4_splitmuxsink.cpp:59-76 | for every total of first index and number above 999999, those beyond 32 bits included, some run hands out the name of an existing file |
| `Recorder.TotalSafe` | libs/camera-pipes/pipeline/storage/mp4_splitmuxsink.cpp:136-144 | a total of first index and number is safe in every run from every disk iff it is at most 999999 |
| `Recorder.SignedStart` | libs/camera-pipes/pipeline/storage/mp4_splitmuxsink.cpp:66-75 | a name with a sign scans as a wrapped number: beside `file--1.avi` the start is 0, beside `file--2.avi` it is 2^32 - 1 |
| `Recorder.WrappedReuse` | libs/camera-pipes/pipeline/storage/mp4_splitmuxsink.cpp:136-144 | a concrete run whose second fragment wraps to index 0 and takes the name of an existing file |
| `V4l2Stream.MmapBuffer.ResetBuf` | libs/camera-pipes/util/v4l2_mmap_buffer.cpp:225-244 | clears everything, frame size and sequence included, but index, type and memory kind |
| `V4l2Stream.AlviumV4l2.Init` | libs/camera-pipes/cameras/Alvium_v4l2.cpp:270-333 | succeeds iff buffers were granted and all map; then every buffer is in the table under its own index and in the application's hands |
| `V4l2Stream.AlviumV4l2.QueueAll` | libs/camera-pipes/cameras/Alvium_v4l2.cpp:338-347 | the queueing loop, including where it stops on a refused buffer |
| `V4l2Stream.AlviumV4l2.StartStreaming` | libs/camera-pipes/cameras/Alvium_v4l2.cpp:336-357 | the new state is the start step of the old one, and when it reports success |
| `V4l2Stream.AlviumV4l2.StopStreaming` | libs/camera-pipes/cameras/Alvium_v4l2.cpp:358-370 | the new state is the stop step of the old one: on success the driver holds nothing and the stream is off, otherwise nothing changes |
| `V4l2Stream.AlviumV4l2.WaitForFrame` | libs/camera-pipes/cameras/Alvium_v4l2.cpp:377-439 | one frame from select to requeue or exception is the dequeue step followed by the return or throw step, with the exact result in every case |
| `V4l2Stream.EveryRunCoherent` | libs/camera-pipes/cameras/Alvium_v4l2.cpp:336-439 | over every interleaving, single turns of a start included, with any failures: table key, buffer index, type and memory agree, and the driver holds each buffer at most once |
| `V4l2Stream.EveryRunClean` | libs/camera-pipes/cameras/Alvium_v4l2.cpp:336-434 | over every interleaving, no buffer the driver holds has the metadata of an old frame |
| `V4l2Stream.FrameTaken` | libs/camera-pipes/cameras/Alvium_v4l2.cpp:399-417 | a frame is taken iff one is ready, DQBUF works and the stream is on; then the oldest filled buffer leaves the driver and carries exactly the reported metadata |
| `V4l2Stream.FrameReturned` | libs/camera-pipes/cameras/Alvium_v4l2.cpp:425-434 | a returning callback has its buffer cleared and, if QBUF works, appended to the queue |
| `V4l2Stream.CallbackSees` | libs/camera-pipes/cameras/Alvium_v4l2.cpp:412-423 | while a callback runs, whatever happens but a start over its buffer, that buffer carries exactly the metadata of its frame |
| `V4l2Stream.Circulation` | libs/camera-pipes/pipeline/camera/V4L2_alvium_pipe.cpp:170-187 | in every streaming run each buffer is with the driver, in the callback or lost, and each exception or failed requeue loses exactly one |
| `V4l2Stream.NormalStreaming` | libs/camera-pipes/cameras/Alvium_v4l2.cpp:399-434 | without losses all buffers are the driver's, but for the one in the running callback |
| `V4l2Stream.Starvation` | libs/camera-pipes/pipeline/camera/V4L2_alvium_pipe.cpp:170-187 | after any streaming run, no frame event ever brings a frame to the callback again iff the run lost as many buffers as there are; the state is then frozen |
| `V4l2Stream.ExceptionsStarve` | libs/camera-pipes/pipeline/camera/V4L2_alvium_pipe.cpp:170-187 | as many throwing frames in a row as there are buffers starve the stream, and no fewer do |
| `V4l2Stream.StartAccepted` | libs/camera-pipes/cameras/Alvium_v4l2.cpp:338-347 | the queueing loop completes iff the driver holds no buffer |
| `V4l2Stream.StartRecovers` | libs/camera-pipes/cameras/Alvium_v4l2.cpp:336-357 | an accepted start queues all buffers in order with index, type and memory unchanged, and with no callback in flight nothing stays lost |
| `V4l2Stream.FailedStart` | libs/camera-pipes/cameras/Alvium_v4l2.cpp:338-357 | a start that fails at buffer k leaves exactly the buffers before k queued, later ones untouched and the stream off; one that fails at STREAMON leaves all queued; the next start is then refused unless nothing was queued |
| `V4l2Stream.RoundRobin` | libs/camera-pipes/cameras/Alvium_v4l2.cpp:336-434 | after a start, frame k is delivered in buffer k modulo the number of buffers |
| `V4l2Stream.FirstStart` | libs/camera-pipes/cameras/Alvium_v4l2.cpp:281-357 | the first start on the table of `init` is accepted and accounts for every buffer |
| `V4l2Stream.RestartAccepted` | libs/camera-pipes/pipeline/camera/V4L2_alvium_pipe.cpp:815-834 | with any frame events between stop and start, the start is accepted iff no callback running at the stop requeued its buffer in between |
| `V4l2Stream.RestartRecovers` | libs/camera-pipes/cameras/Alvium_v4l2.cpp:336-370 | an accepted restart returns every buffer to the driver's queue whatever was lost; a refused one leaves the stream off |
| `V4l2Stream.StartIsTurns` | libs/camera-pipes/cameras/Alvium_v4l2.cpp:338-347 | an undisturbed start is its turns one by one |
| `V4l2Stream.ReturnInsideStart` | libs/camera-pipes/cameras/Alvium_v4l2.cpp:338-347 | a callback that returns after j turns of the start: the start completes iff it had queued that buffer itself |
| `V4l2Stream.RestartDuringCallback` | libs/camera-pipes/cameras/Alvium_v4l2.cpp:358-369 | a callback that outlives the restart holds a buffer that is also queued and whose metadata is cleared, and its requeue is refused |
| `V4l2Controls.Advance` | libs/camera-pipes/util/v4l2_util.cpp:674-701 | asking for the control after the last one moves the enumeration on by exactly one |
| `V4l2Controls.V4l2Util.ProbeControls` | libs/camera-pipes/util/v4l2_util.cpp:669-703 | the loop terminates, and succeeds iff no query up to the end of the enumeration fails; then both maps are those of the enumeration |
| `V4l2Controls.V4l2Util.ReadMenu` | libs/camera-pipes/util/v4l2_util.cpp:724-779 | the menu holds an index iff it lies from minimum to maximum, is a whole number of steps from the minimum and the driver has the item, and then that item |
| `V4l2Controls.V4l2Util.ReadMenus` | libs/camera-pipes/util/v4l2_util.cpp:704-781 | exactly the menu controls get a menu, each complete |
| `V4l2Controls.V4l2Util.ProbeCtrl` | libs/camera-pipes/util/v4l2_util.cpp:653-784 | on success the three maps agree with one enumeration: a complete menu for exactly the controls of type menu or integer menu |
| `V4l2Controls.EnumerationMembers` | libs/camera-pipes/util/v4l2_util.cpp:669-703 | the enumeration holds the base control and the non-compound controls above it, and nothing if there is no base control |
| `V4l2Controls.EnumerationIncreasing` | libs/camera-pipes/util/v4l2_util.cpp:669-703 | the enumeration is by increasing id |
| `V4l2Controls.V4l2Util.LookupByName` | libs/camera-pipes/util/v4l2_util.hpp:165-185 | a lookup by name returns a control iff it has the name and no control enumerated before it has |
| `V4l2Controls.V4l2Util.LookupById` | libs/camera-pipes/util/v4l2_util.hpp:187-196 | a lookup by id returns exactly the controls from the base up that are not compound; a menu control found has its complete menu, another none |
| `Thumbnail.Stopwatch.TimeLeft` | libs/opaleye-util/Stopwatch.cpp:63-67 | never negative, zero iff expired, and waiting that long expires the alarm |
| `Thumbnail.Stopwatch.Reset` | libs/opaleye-util/Stopwatch.cpp:34-37 | the alarm restarts from now |
| `Thumbnail.CopyBlocks` | libs/camera-pipes/pipeline/Thumbnail_sw2_pipe.cpp:116-136 | the block loop stays inside the buffer and leaves the concatenation of all blocks in it |
| `Thumbnail.FlattenAt` | libs/camera-pipes/pipeline/Thumbnail_sw2_pipe.cpp:116-136 | each byte of each block is found behind all the blocks before it |
| `Thumbnail.ThumbnailPipe.DownsampleJpeg` | libs/camera-pipes/pipeline/Thumbnail_sw2_pipe.cpp:156-198 | a decodable frame is published by swapping the two distinct pages, in the steps that readers can interrupt and whatever the encoder reports; any other publishes nothing |
| `Thumbnail.ThumbnailPipe.HandleNewSample` | libs/camera-pipes/pipeline/Thumbnail_sw2_pipe.cpp:101-154 | a sample is processed iff at least the alarm time has passed since the last reset; then the alarm restarts, and a decodable frame is published |
| `Thumbnail.RateLimit` | libs/camera-pipes/pipeline/Thumbnail_sw2_pipe.cpp:101-108 | any window of length L holds at most floor(L/dt) + 1 processed thumbnails |
| `Thumbnail.SamplesServed` | libs/camera-pipes/pipeline/Thumbnail_sw2_pipe.cpp:104-108 | every sample is processed itself or comes less than dt after the last reset |
| `Thumbnail.StepUntorn` | libs/camera-pipes/pipeline/Thumbnail_sw2_pipe.cpp:183-189 | every step keeps the front page equal to the last published image and the back page equal to the part encoded so far |
| `Thumbnail.ReadersSeeWholeImages` | libs/camera-pipes/pipeline/Thumbnail_sw2_pipe.hpp:45-59 | in every interleaving the pages stay distinct and a finished copy is the image published last, or empty |
| `Thumbnail.UndisturbedPublication` | libs/camera-pipes/pipeline/Thumbnail_sw2_pipe.cpp:183-189 | encoding byte by byte and flipping, undisturbed, leaves exactly the image on the front page with the pages swapped |

## Left out

- Parsing of path text by Boost.Filesystem: paths are the element sequences their iterators yield.
- Registration of handlers while other threads look them up: the source has no lock there, so the trie is sequential.
- GpioTrigger.EveryRun: times are unbounded integers; wrap-around of 64-bit kernel times in timer arithmetic, and clock steps, are not modelled.
- GpioTrigger.PromptPulse: a width that is a multiple of the period makes both edges fall on one instant, whose order the kernel does not promise.
- GpioTrigger.LatencyBound: a latency of at least both phases leaves no time at which the train says anything, and late callbacks after a start in the past, where both timers are overdue at once, are not modelled.
- GpioTrigger.GpioModule.EnableStore: the edge is read before the mutex is taken in the source; writes are modelled as serialised.
- Chrono.TimespecAddChrono: seconds are unbounded integers; `AddChronoFits` says where 64-bit words cannot overflow, and what happens at the ends of the range is not modelled.
- Ms5837.CalcPressure: samples are the 24-bit values that `sample` assembles; wider `uint32_t` arguments, the I2C traffic and the factory CRC are not modelled.
- Recorder.NeverOverwrites: distinct camera names are taken to give distinct directories, and nobody else creates files named like recordings while one runs.
- V4l2Stream.EveryRunCoherent: ioctls are atomic; concurrent writes by two threads to one buffer's metadata are taken in some order.
- V4l2Stream.AlviumV4l2.Init: format negotiation, `mmap` itself and the table by address, which is only written, are not modelled; nor are `open` and `close`.
- V4l2Controls.V4l2Util.ReadMenu: menu indices are unbounded, and drivers are taken to report a positive step for menus, as V4L2 says.
- Thumbnail.ThumbnailPipe.HandleNewSample: decoding, scaling and encoding are one function parameter, and the size of a buffer is taken to be the sum of its blocks.
- GStreamer pipelines, FastCGI and ZeroMQ traffic, JSON-RPC handlers, configuration files and the other sensors: plumbing, or only easy members.
