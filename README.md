# Autolight in Dafny

Autolight sets a laptop's backlight from the ambient light seen by its
webcam. It opens a Video4Linux2 capture device, negotiates MJPEG frames and
switches on automatic exposure where it can. It then cycles a pool of
memory-mapped buffers through the driver. Each decoded frame is reduced to a
brightness score in [0, 1], using the BT.709 (STD) or BT.601 (OPT1) luma
weights, and the score becomes a level from 0 to 100. The level is rescaled
into the range of the RandR backlight property of every output of the X
display and written there.

The model has one module per part of the program:

- `Common` (`common.dfy`) holds the byte type, the outcome types and C's
  truncating conversion.
- `V4l2` (`v4l2.dfy`) models `lib/v4l2.c` as the class `CaptureDevice`. Its
  fields are the static variables of the source. Every kernel answer (stat,
  open, ioctl, mmap, munmap, close) is a parameter. A fatal `exit` becomes a
  `Fail`/`Err` value. The ghost `log` records every request that moves a
  buffer between program and driver.
- `Brightness` (`brightness.dfy`) models the STD and OPT1 reduction of
  `image_brightness` in `autolight.c`, with the decimal weights scaled to
  exact integers.
- `Control` (`control.dfy`) models the option settings, `calibrate_cam`
  and `main_loop` of `autolight.c`. The main loop is described by the trace
  of events it produces.
- `Xws` (`xws.dfy`) models `lib/xws.c` as the class `RandrBacklight`. The X
  server is a set of reply functions. A property write is recorded as a
  `Write`. The output loop of `xws_backlight_set` is the function `FanOut`,
  and the method is proved equal to it.
- `Scenarios` (`scenarios.dfy`) connects a frame to the values written to
  the outputs.

The model follows the code in these places:

- `start_capturing` queues only buffer 0, because its request is zeroed. It
  does not queue every buffer.
- A negative calibration count reads no frames.
- `xws_init` fails when neither atom exists on the server. It does not look
  at whether any output carries the property.
- The error-flag test in the `dqbuf` loop is never reached after a
  successful dequeue.

An output whose backlight property really holds -1 looks the same as an
unreadable one, and it is skipped. `ReadBacklight` states this.

## Model

| member | source | states |
|---|---|---|
| Common.Truncate | autolight.c:281 | a `(long)` cast of a double: the whole part, truncated toward zero (at most 1 below a non-negative value, at most 1 above a negative one) |
| Common.TruncateMonotone | lib/xws.c:101 | the truncating cast never reverses the order of two values |
| Common.TruncateWhole | lib/xws.c:101 | the cast leaves a whole number unchanged |
| Common.ConcatLength | lib/v4l2.c:349-354 | rows of equal length laid end to end fill rows × length bytes |
| Common.ConcatAt | lib/v4l2.c:349-354 | byte j of row k lands at k × rowBytes + j |
| Brightness.WeightScale | autolight.c:14-15 | the integer weights are over a denominator of 10000 or 1000 |
| Brightness.LumaIsMacro | autolight.c:14-15 | a pixel's integer luma over the denominator equals the STD or OPT1 macro's decimal weighted sum exactly |
| Brightness.Luma | autolight.c:14-15 | a pixel's weighted luma lies between 0 and 255 × the weight denominator |
| Brightness.PixelSum | autolight.c:198-215 | the `delta_brightness` accumulated over the first n pixels, in units of the weight denominator; its bounds and monotonicity are the lemmas below |
| Brightness.Score | autolight.c:179-229 | the value `image_brightness` returns: the mean luma divided by 255; `ScoreAsFraction`, `ScoreBounds` and `ScoreMonotone` state its properties |
| Brightness.PixelSumBounds | autolight.c:198-215 | the summed luma of n pixels lies between 0 and denominator × n × 255 |
| Brightness.ScoreAsFraction | autolight.c:229 | the score is the luma sum over the largest sum n pixels can reach |
| Brightness.ScoreBounds | autolight.c:179-229 | for channel bytes 0..255 the score lies in [0, 1] |
| Brightness.PixelSumOfConstant | autolight.c:14-15 | each weight set sums to exactly one: a constant frame k sums to k × denominator × n |
| Brightness.ScoreOfConstant | autolight.c:14-15 | a frame whose every channel equals k scores k / 255 |
| Brightness.PixelSumMonotone | autolight.c:198-216 | raising channel bytes never lowers the summed luma |
| Brightness.ScoreMonotone | autolight.c:198-216 | raising any channel bytes of any pixels never lowers the score |
| Brightness.ScoreMonotoneInOneByte | autolight.c:198-216 | raising a single channel byte never lowers the score |
| Brightness.PixelSumOnlyReadsPixels | autolight.c:184-204 | the sum reads exactly the first 3n bytes, as R, G, B triples |
| Brightness.ScoreOnlyReadsPixels | autolight.c:184-204 | bytes past the 3n of the frame never influence the score |
| Brightness.ImageBrightness | autolight.c:180-230 | the loop over triples computes the score, and the score lies in [0, 1] |
| Control.SelectAlgorithm | autolight.c:153-159 | "opt1"/"OPT1" selects OPT1 and "opt2"/"OPT2" selects OPT2, both directions; any other argument keeps the selection |
| Control.SelectAlgorithmNeverStd | autolight.c:153-159 | once OPT1 or OPT2 is chosen, STD never comes back |
| Control.SelectAlgorithmIdempotent | autolight.c:153-159 | repeating the same `-x` argument has no further effect |
| Control.Settings.constructor | autolight.c:109-115 | initial settings: STD, 24 calibration frames, not interactive, timeout 1000 |
| Control.Settings.SetBrightnessOption | autolight.c:153-159 | the selector becomes `SelectAlgorithm` of the argument and the old selector |
| Control.Settings.SetCalibrateOption | autolight.c:149-152 | the calibration count becomes the given number |
| Control.Settings.SetInteractiveOption | autolight.c:161-167 | interactive is set; the timeout changes only when one is given |
| Control.BrightnessLevel | autolight.c:281 | the level is score × 100 truncated, and lies in 0..100 for a score in [0, 1] |
| Control.BrightnessLevelMonotone | autolight.c:281 | a brighter score never gives a lower level |
| Control.CalibrateCam | autolight.c:241-261 | exactly `calibrate_frames` captures when positive, none otherwise |
| Control.MainLoop | autolight.c:273-295 | calibration captures only with auto exposure on; then one capture and one backlight set with that frame's level, once, or once per frame when interactive; never a delay |
| V4l2.Candidate | lib/v4l2.c:62-63 | the i-th default name is "/dev/video" followed by digit i, 11 characters long |
| V4l2.CandidatesDistinct | lib/v4l2.c:62-63 | different indexes give different default names |
| V4l2.FirstCandidate | lib/v4l2.c:62-80 | the chosen index is the first whose stat succeeds; none means all ten fail |
| V4l2.ProbeDefaultDevice | lib/v4l2.c:62-80 | the loop stats /dev/video0, /dev/video1, ... in order and stops at the first that exists |
| V4l2.OpenOutcome | lib/v4l2.c:48-110 | the device name `open_device` keeps, or the fatal error it exits with; `OpenOutcomeSpec` states its properties |
| V4l2.OpenOutcomeSpec | lib/v4l2.c:48-110 | a failing explicit path or ten failing defaults are fatal; the path kept is the given one or the first existing default, is a character device that opened, and fits the 64-byte name buffer, counting one byte per character |
| V4l2.DefaultNameFits | lib/v4l2.c:100-105 | a default device name never trips the length guard |
| V4l2.FirstAccepted | lib/v4l2.c:191-201 | the first mode the device accepts, with every earlier mode rejected |
| V4l2.AutoExposure | lib/v4l2.c:177-215 | the auto exposure decision, or the fatal error of a failing query; `AutoExposureOnIff` states when it is on |
| V4l2.AutoExposureOnIff | lib/v4l2.c:177-215 | auto exposure is on exactly when the control exists and is already automatic or accepts one of the three modes; off exactly when the control is absent or manual with every mode rejected |
| V4l2.EnableAutoExposure | lib/v4l2.c:176-215 | the result is `AutoExposure`; in manual mode AUTO, SHUTTER_PRIORITY and APERTURE_PRIORITY are sent in that order up to the first accepted one; otherwise no mode is sent |
| V4l2.FrameLayout | lib/v4l2.c:337-354 | decoded row k occupies bytes [k × rowBytes, (k + 1) × rowBytes) of a height × rowBytes frame |
| V4l2.CopyScanlines | lib/v4l2.c:349-354 | the frame starts with the decoded rows end to end, and bytes past them are untouched |
| V4l2.CaptureDevice.constructor | lib/v4l2.c:15-23 | default 640 × 480 capture size, no buffers, not streaming |
| V4l2.CaptureDevice.OpenDevice | lib/v4l2.c:48-110 | the stored name and descriptor, or the fatal error, are those `OpenOutcome` gives |
| V4l2.CaptureDevice.SetFormat | lib/v4l2.c:112-135 | MJPEG with no field order is requested at the current size; the size becomes the one the driver answers |
| V4l2.CaptureDevice.InitDevice | lib/v4l2.c:137-216 | a non-V4L2, non-capture or non-streaming device is fatal; otherwise the format is negotiated and the result is the auto exposure decision |
| V4l2.CaptureDevice.InitMmap | lib/v4l2.c:238-289 | 2 buffers are requested and a grant of 0 is fatal; on success the count equals the grant and entry i holds the mapping and length queried for index i; only the buffer table and its count change |
| V4l2.CaptureDevice.StartCapturing | lib/v4l2.c:365-378 | buffer 0 is queued, then streaming starts |
| V4l2.CaptureDevice.ReadFrame | lib/v4l2.c:291-363 | one buffer is dequeued; an index at or past the count is fatal; the frame receives the decoded rows and the same buffer is queued back exactly once |
| V4l2.CaptureDevice.CloseDevice | lib/v4l2.c:218-236 | stream off, then every mapped buffer is unmapped in order, then close; it succeeds exactly when each step does |
| V4l2.Unmaps | lib/v4l2.c:225-229 | one munmap per buffer, in buffer order |
| Xws.ReadBacklight | lib/xws.c:13-46 | the new atom is used unless the server refuses it; the legacy atom is tried only when it exists; the value is the property's single 32-bit INTEGER, or -1 |
| Xws.Rescale | lib/xws.c:92-101 | the written value lies in [min, max] whenever min <= max |
| Xws.RescaleMonotone | lib/xws.c:95-101 | a higher level is never written as a lower value |
| Xws.RescaleOfZero | lib/xws.c:95-101 | level 0 is written as min when 0 <= min |
| Xws.RescaleOfFull | lib/xws.c:95-101 | for 0 <= min, level 100 is written as max - min, raised to min when smaller; it equals max only when min is 0 or the range is one value |
| Xws.Eligible | lib/xws.c:80-89 | an output is written exactly when its level reads as something other than -1 and its property is a range of two values; `FanOutWritesEligible` states this of the loop |
| Xws.Visit | lib/xws.c:80-107 | one pass of the output loop: `backlight` becomes the atom read for the output; one write is appended exactly when the output is eligible, and earlier writes are kept; without carrying, or without a write, the level stays as it was |
| Xws.FanOut | lib/xws.c:74-112 | after the outputs are visited, `backlight` holds the atom read for the last of them |
| Xws.FanOutAppend | lib/xws.c:55-116 | visiting the outputs of several screens is visiting each screen's outputs in turn, carrying the level and atom over |
| Xws.FanOutWritesEligible | lib/xws.c:80-89 | exactly the outputs with a readable level and a two-bound range property are written, each once, in visiting order |
| Xws.FanOutWritesSome | lib/xws.c:51-120 | something is written (success 1) exactly when some output is eligible |
| Xws.FanOutWriteAdmissible | lib/xws.c:80-101 | each write goes to a readable output, under the atom it was read from, inside the output's range |
| Xws.FanOutWritesAdmissible | lib/xws.c:80-101 | every write is admissible |
| Xws.FanOutCarriedValue | lib/xws.c:101 | as written, `value` ends as the last value written, or unchanged when nothing was written |
| Xws.FanOutCarriesValueAt | lib/xws.c:74-101 | as written, write k is the level rescaled for k = 0, else write k - 1's value rescaled |
| Xws.FanOutCarriesValue | lib/xws.c:74-101 | the as-written chain: each output is rescaled from the previous output's written value |
| Xws.FanOutRescalesLevel | lib/xws.c:92-101 | as intended, every write is the level itself rescaled into that output's range |
| Xws.FanOutMonotoneAt | lib/xws.c:74-101 | from a higher level the same outputs are written under the same atoms, with values never lower when the ranges are ordered |
| Xws.CarriedValueCounterexample | lib/xws.c:96-101 | ranges [0, 1000] and [0, 100] at level 50: as written [500, 100], as intended [500, 50] |
| Xws.AllOutputs | lib/xws.c:55-77 | the outputs of the screens whose resources were returned, screen by screen, in order; `ScreensReachEnd` states that the intended screen loop visits exactly these |
| Xws.NextScreenAsWritten | lib/xws.c:55-116 | as written, the iterator stays on a screen exactly when its resources are refused, and otherwise moves on by one |
| Xws.ScreensAsWritten | lib/xws.c:55-116 | as written, the screen loop never moves backwards and only ever extends the outputs visited |
| Xws.ResourcesErrorNeverAdvances | lib/xws.c:66-70 | as written, a screen whose resources are refused holds the screen loop on it for any number of passes, and no further output is visited |
| Xws.Screens | lib/xws.c:55-116 | as intended, each pass moves to the next screen until the last is passed, and the outputs visited are only ever extended |
| Xws.ScreensReachEnd | lib/xws.c:55-116 | as intended, one pass per screen takes the loop past the last screen, having visited exactly `AllOutputs`: the outputs of every screen whose resources were returned, in order |
| Xws.ScreensAsWrittenWithoutErrors | lib/xws.c:55-116 | when no screen's resources are refused, the loop as written and the intended loop agree for any number of passes |
| Xws.RandrBacklight.constructor | lib/xws.c:10 | all three atoms start as NONE |
| Xws.RandrBacklight.Init | lib/xws.c:123-180 | RandR 1.2 or a later 1.x is required; intern requests for both "Backlight" and "BACKLIGHT" are sent; the "BACKLIGHT" reply is read only when "Backlight" is NONE; it succeeds exactly when one of them exists |
| Xws.RandrBacklight.BacklightGet | lib/xws.c:13-46 | the atom tried last stays in `backlight`; the value is what `ReadBacklight` gives |
| Xws.RandrBacklight.SetOutput | lib/xws.c:75-111 | one pass of the output loop is `Visit`: the rescaled level becomes the new level and at most one write is sent |
| Xws.RandrBacklight.SetScreen | lib/xws.c:74-112 | the output loop over one screen is `FanOut` over its outputs |
| Xws.RandrBacklight.BacklightSet | lib/xws.c:48-121 | the writes and the final `backlight` are `FanOut` over all outputs of all screens; the result is 1 when something was written, else -1 |
| Scenarios.FrameLevelInRange | autolight.c:281 | every frame's level lies in 0..100 |
| Scenarios.WhiteFrameFullLevel | autolight.c:281 | an all-white frame gives level 100 |
| Scenarios.BlackFrameZeroLevel | autolight.c:281 | an all-black frame gives level 0 |
| Scenarios.FrameDrivesSingleOutput | lib/xws.c:92-107 | on one eligible output with range [0, max], white sets max and black sets 0 |
| Scenarios.BrighterFrameNeverDims | lib/xws.c:74-107 | with ordered ranges, a brighter frame never sends a lower value to any output |
| Scenarios.FrameReachesEveryOutput | lib/xws.c:74-107 | as intended, the frame's level reaches every eligible output in visiting order, rescaled into its own range |

## Findings

| source | as written | input that shows it | evidently intended | confidence | as-written member | corrected member |
|---|---|---|---|---|---|---|
| lib/xws.c:101 | `value = (long)new` overwrites the level, so every later output is rescaled from the previous output's written value | two eligible outputs with ranges [0, 1000] and [0, 100], level 50: the second is sent 100 (full brightness) instead of 50 | each output is sent the level rescaled into its own range | high; not executed | Xws.CarriedValueCounterexample | Xws.FanOutRescalesLevel |
| lib/xws.c:69 | the `continue` on a screen-resources error skips `xcb_screen_next` (line 115), so the iterator stays on that screen | a screen whose resources request the server keeps refusing: the loop never ends | a refused screen is skipped and the loop moves to the next screen | high; not executed | Xws.ResourcesErrorNeverAdvances | Xws.ScreensReachEnd |

The first row's correction is `FanOut` with `carry` off. The capture-to-output
lemma `Scenarios.FrameReachesEveryOutput` uses it. `RandrBacklight.BacklightSet`
keeps the code's behaviour, so the other lemmas describe what the program
does. The second row's correction is the screen loop `Screens`.
`ScreensReachEnd` proves that it ends and visits exactly `AllOutputs`, where
a refused screen contributes no outputs. `RandrBacklight.BacklightSet` runs
the output loop over those same outputs.

## Left out

- Xws.Rescale: exact real arithmetic. The source computes in IEEE doubles,
  where 100 × ((255 − 0) / 100) rounds to 254.99999999999997 and truncates to
  254. The model writes 255 there.
- Xws.RescaleOfFull: holds in exact arithmetic only. For the range [0, 255]
  the source writes 254 at level 100, not max (see `Xws.Rescale`).
- Brightness.ImageBrightness: OPT2 (`sqrt`/`pow`) is not modelled, because it
  needs floating point. STD and OPT1 are exact. A zero pixel count is
  excluded, because the source divides 0.0 by 0 there.
- Brightness.Score: the source accumulates doubles. The model's sum is
  exact. The rounding is not confined to the last bits once the level is
  truncated. Under STD the double value of 0.2126 × 255 + 0.7152 × 255 +
  0.0722 × 255 is 254.99999999999997, so an all-white frame scores just
  below 1.0 (0.9999999999999998 at 640 × 480) and `(long)(score * 100)` at
  autolight.c:281 gives level 99. Under OPT1 the same frame scores exactly 1.0 and gives level 100.
- Scenarios.WhiteFrameFullLevel: holds in exact arithmetic only. In the
  source's doubles an all-white frame gives level 99 under STD, the default
  algorithm, and level 100 under OPT1.
- Scenarios.FrameDrivesSingleOutput: holds in exact arithmetic only. For an
  output with range [0, 255], the source writes 252 for an all-white frame
  under STD (level 99 × 2.55 = 252.45, truncated) and 254 under OPT1 (see
  `Xws.Rescale`). The all-black case holds as stated.
- Control.MainLoop: the interactive loop never ends in the source. The model
  runs it over the frame scores supplied. Each frame's score is an input,
  so capturing is not linked to scoring inside the loop.
- Control.MainLoop: the interactive timeout is only a stored number. The
  source never sleeps on it, so no delay is modelled.
- The kernel and the X server are not executed. stat, open, the ioctls,
  mmap, munmap, close and every XCB reply are parameters of the operations.
- libjpeg decoding (`jpeg_read_header`, `jpeg_start_decompress`,
  `jpeg_read_scanlines`) is a foreign library. The decoded rows are an input
  of `ReadFrame`.
- V4l2.OpenOutcome: paths are strings of characters, and the length guard
  counts one byte per character. lib/v4l2.c:100 counts bytes with `strlen`,
  so the bound is exact only for single-byte (ASCII) names. A name of 61 'a'
  followed by 'é' is 62 characters but 63 bytes in UTF-8. The source rejects
  it as too long, and the model keeps it. The same holds for
  `V4l2.OpenOutcomeSpec` and `V4l2.CaptureDevice.OpenDevice`.
- V4l2.CaptureDevice.ReadFrame: the `dqbuf` busy retry on EAGAIN is reduced
  to its final outcome, one dequeue reply. Whether it ends depends on the
  device producing frames.
- V4l2.CaptureDevice.ReadFrame: its requirement that the decoded image fits
  the frame (height × width × components bytes at most the frame's length),
  shared with `V4l2.CopyScanlines`, is not checked by the source. The decoded
  size comes from the JPEG header (lib/v4l2.c:337-340). The callers allocate
  `capture_width × capture_height × 3` bytes (autolight.c:184-188 and
  autolight.c:245). A larger image overruns the buffer in the source, and
  the model does not describe that overrun.
- VIDIOC_CROPCAP and VIDIOC_S_CROP in `init_device` are left out. Their
  results are ignored and they change no state of the program.
- The exits on `malloc`/`calloc` failure, the `DEBUG` blocks (the test image
  and the timing), `clock()` and the diagnostics printed are left out.
- Command-line parsing (`getopt_long`, `atoi`, the help text, `--device`,
  `--display`, `--width`, `--height`) and `main` are not part of this model.
  The `-x`, `-c` and `-i` cases are modelled as `Settings` methods that take
  the already converted value.
- The XCB connection, `xcb_flush`, `xcb_aux_sync` and the 32-bit encoding of
  the `long` written by RRChangeOutputProperty are left out. A write records
  the value as an integer.
- Xws.RandrBacklight.BacklightSet: a refused screen is skipped, as intended,
  where the source would spin (second Findings row).
