# Microfluidic genotyping: 5R7-001 temperature controller core

This project models the software that runs PCR thermal cycling on a PDMS
genotyping micro-device. The software drives an off-chip 5R7-001 Peltier
temperature controller over a serial line. It has two parts:

- **The frame codec** (`auxil.py`), module `Auxil`. `set_command` builds
  the 16-character ASCII-hex frame that writes a parameter: `*`, address
  `00`, a two-character command code, four reserved zeros, a four-digit
  hexadecimal value field, a two-digit checksum and a carriage return.
  `check_sum` builds the zero-valued query frame for a command.
  `get_response` reads the four characters at positions len-7..len-4 of
  any reply of at least 7 characters as hexadecimal and writes the value
  as `'%.4f'` text, from `0.0000` to `65535.0000`.
- **The controller object** (`temperature_control.py`, class
  `Temperature_control`), class `TemperatureControl.Controller`. It covers:
  - the run-flag and PID/temperature setters, each of which flushes the
    input buffer and then writes one frame;
  - the six getters, each of which writes a fixed query frame and scales
    the decoded reply;
  - `log_temperature`, which queries set, control and periphery
    temperature and writes one log line;
  - the steady-state wait and the incubation loop, which read the control
    temperature and log one sample per pass;
  - the `Q`-to-exit prompt;
  - `pcr_wo_trigger`: outer denaturation, `loop_iter` passes of (inner
    denaturation except on the first pass, annealing, elongation), then a
    final hold with no steady-state wait, then the exit prompt. The
    `cycle` counter is set to `i + 1` on entry to pass `i`.

`Numerals` models the Python text primitives the code relies on:
- `hex()` digits;
- `int(s, 16)`, which accepts upper- and lower-case digits;
- `'%.4f'` of a whole number and `float()` of that text;
- `str.strip()`.

`Pcr` describes the thermal program as a value:
- the order of the phases;
- the settings each phase writes;
- how many frames set the temperature.

The serial port is a trace of `Flush` and `Write(setting)` events. A write
names the command code and integer value its frame encodes. `Transmit`,
the one method that appends a write, requires the bytes it is given to be
`Frame(code, value)` for that setting. `Setters(trace)` picks out the
parameter writes, and lemmas tie them to the settings `Pcr` prescribes.

These come from the caller as parameters:
- the reply each query reads (`Pass`, `Sample`, `StageInput`);
- the elapsed-time clock the waiting loops see;
- the lines typed at the exit prompt.

A reply that does not decode raises IndexError or ValueError in the
source, and nothing catches it, so the run ends there. The model carries
this as an outcome: the getters return `Err`, a wait ends `Aborted`, an
incubation and a stage end with `aborted`, and `PcrWoTrigger` stops after
the stage that aborted, with no final hold and no exit prompt.

The invariant `Valid()` states that every write in the trace comes right
after a flush of the input buffer. Every controller method keeps it.

## Model

| member | source | states |
|---|---|---|
| Numerals.DigitValue | auxil.py:85 | `int(c, 16)` accepts exactly 0-9, a-f and A-F; 0-9 read as 0..9, a-f and A-F as 10..15 |
| Numerals.HexValueCaseInsensitive | auxil.py:85 | `int(s, 16)` gives the same result for s and its upper-case form |
| Numerals.HexValueDefined | auxil.py:85 | `int(s, 16)` reads a value exactly when s is a non-empty run of hexadecimal digits |
| Numerals.HexDigit | auxil.py:38 | a digit of `hex()` (`HexDigit`, the digits of `Hex(n)`) is lower case and reads back as its value |
| Numerals.HexShape | auxil.py:41-42 | `hex(n)` digits are non-empty, lower case, with no leading zero for n > 0 |
| Numerals.HexLength | auxil.py:44-54 | `hex(n)` has at most k digits exactly when n < 16^k |
| Numerals.HexRoundTrip | auxil.py:85 | `HexValue`, the reading of `int(s, 16)`, gives back n from `Hex(n)`, the digits of `hex(n)`: `int(hex(n), 16) == n` |
| Numerals.LeadingZero | auxil.py:85 | a leading `0` does not change the value `int(s, 16)` reads |
| Numerals.ZerosValue | auxil.py:85 | any number of leading zeros leaves the value unchanged |
| Numerals.PaddedHexValue | auxil.py:85 | a w-digit zero-padded field reads back as n when n < 16^w |
| Numerals.RightJustifiedHex | auxil.py:41-56 | right-justifying `hex(n)` in w zeros is the w-digit padded hexadecimal of n |
| Numerals.DecimalRoundTrip | auxil.py:85 | the decimal numeral of n reads back as n |
| Numerals.FixedPoint4RoundTrip | temperature_control.py:148 | `FixedPoint4(n)`, the text of `'%.4f' % n`, reads back through `float()` as n for a whole number n |
| Numerals.Strip | temperature_control.py:521 | the stripped text has no whitespace at either end, is the input when that has none, is empty for all-whitespace input |
| Numerals.StripIsSlice | temperature_control.py:521 | the stripped text is the input with a run of whitespace removed from each end and nothing else |
| Auxil.Ceil | auxil.py:31 | `int(math.ceil(x))` is the least integer not below x |
| Auxil.Frame | auxil.py:27-70 | a set frame is 16 characters long |
| Auxil.ValueFieldChars | auxil.py:37-56 | `HexText(v)` is the text of `hex(v)` after the `x`, with the `L` that Python 2 appends for a `long` (`IsLong`, auxil.py:38-42); offset 12 gets its last character; offsets 11, 10, 9 get the earlier characters only when there are at most four, else stay `0` |
| Auxil.WriteChecksum | auxil.py:58-68 | the loop sums offsets 1..12; the checksum `hex(sum % 256)` lands in 13..14 (one digit at 14 only); the rest is unchanged |
| Auxil.WriteValue | auxil.py:37-56 | both branches (0/1 and general) write the value field into 9..12 and leave every other offset unchanged |
| Auxil.SetCommand | auxil.py:27-70 | `set_command(c, x)` returns the frame of c and ceil(x) |
| Auxil.CheckSum | auxil.py:87-107 | `check_sum(c)` equals `set_command(c, 0)` |
| Auxil.GetResponse | auxil.py:72-85 | the reply's characters at len-7..len-4 as `'%.4f'` of their hexadecimal value, which `float()` reads back as that value; IndexError below 7 characters, ValueError for a non-hex digit |
| Auxil.DecodableValue | auxil.py:80-85 | `ResponseValue`, the decoding of auxil.py:80-85, gives a value exactly when the reply has at least 7 characters and its four window characters are hexadecimal digits, and the value is what they read as |
| Auxil.FrameLayout | auxil.py:34 | every frame: `*`, `00`, the code at 3..4, `0000`, the value field at 9..12, `\r` at 15 |
| Auxil.ValueFieldInRange | auxil.py:41-56 | for 0 <= v <= 0xFFFF the value field is the four-digit zero-padded lower-case hexadecimal of v |
| Auxil.FlagFields | auxil.py:37-39 | the 0/1 branch writes `0000` and `0001`, the same as the general branch |
| Auxil.ValueFieldOverflow | auxil.py:41-56 | above 0xFFFF only the last character of `hex(v)` is written: the last digit, which reads back as v % 16 and not v, or for a Python 2 `long` the `L`, which does not read back |
| Auxil.LongRoundTrip | auxil.py:41-56 | the frame of a value past `sys.maxint` does not decode: its reply window ends in `L` |
| Auxil.ChecksumFieldValue | auxil.py:61-68 | the checksum field reads back as sum % 256 and is lower-case hex |
| Auxil.FrameChecksum | auxil.py:58-68 | every frame's offsets 13..14 read back as the character sum of 1..12 modulo 256 |
| Auxil.SingleChangeDetected | auxil.py:58-68 | changing one character at offsets 1..12 of a frame changes its checksum |
| Auxil.RoundTrip | auxil.py:80-85 | for 0 <= v <= 0xFFFF, decoding the frame of v gives v |
| Auxil.ResponseWindow | auxil.py:80-83 | the decoded value depends only on the four characters at len-7..len-4 |
| Auxil.CharSumFrom | auxil.py:58-59 | the left-to-right character sum over a suffix equals the recursive sum |
| Auxil.ZeroValueFrame | auxil.py:92-107 | a query frame is `*00`, the code, eight zeros, the checksum of 480 plus the code's characters, and `\r` |
| Auxil.ExampleTemperatureFrame | temperature_control.py:107 | 92.50 C, scaled by 100 and rounded up to 9250 = 0x2422 as `SetTemperature` does, is sent as `*001c000024227e\r` |
| Auxil.ExampleRunFlagFrame | temperature_control.py:65 | the RUN flag frame is `*002d0000000177\r` |
| Auxil.ExampleResponse | auxil.py:72-85 | a reply with digits `03E8` decodes (upper case accepted) to 1000, written `1000.0000` |
| Pcr.StageSettings | temperature_control.py:556-560 | a stage writes four settings |
| Pcr.IterationsLength | temperature_control.py:566-618 | `Iterations(N)`, the stages of N loop passes in order (inner denaturation except on the first pass, annealing, elongation), has 3N - 1 stages (N = 0: none) |
| Pcr.PlanLength | temperature_control.py:549-632 | `Plan(p)`, the program in order (outer denaturation, `Iterations(N)`, the final hold), has 3N + 1 stages for N >= 1 loop passes; N = 0 gives two |
| Pcr.NoLoop | temperature_control.py:566 | `range(0, loop_iter)` with loop_iter <= 0 leaves outer denaturation then the final hold |
| Pcr.PlanEnds | temperature_control.py:549-632 | the program starts with outer denaturation, ends with the final hold, and every other stage waits for steady state |
| Pcr.IterationCounts | temperature_control.py:566-618 | N passes anneal N times, elongate N times and denature N - 1 times |
| Pcr.PlanSettingsAt | temperature_control.py:556-560 | stage j's writes are settings 4j..4j+3: P bandwidth, I gain, D gain, temperature |
| Pcr.PlanCodes | temperature_control.py:556-560 | every setting has a two-character code, and its frame carries that code at 3..4 |
| Pcr.FrameCode | auxil.py:34 | the frame of a code carries it at offsets 3..4 |
| Pcr.StageTemperatureSets | temperature_control.py:556-560 | each stage sets the temperature exactly once |
| Pcr.PlanTemperatureSets | temperature_control.py:549-632 | a list of stages sets the temperature once per stage |
| Pcr.ProgramTemperatureSets | temperature_control.py:549-632 | the program's frames set the temperature 3N + 1 times for N >= 1 passes, twice for N = 0 |
| TemperatureControl.Controller.constructor | temperature_control.py:28-41 | the cycle counter starts at 0 and nothing has been sent or logged; `__init__` opens no log, so whether the log is open is an argument, set by the caller that assigns `logfile` afterwards (genotyping_pcr.py:66) |
| TemperatureControl.Controller.Transmit | temperature_control.py:64-65 | flush the input buffer, then write the frame, which must be the frame of the setting the trace records |
| TemperatureControl.FlushedExchange | temperature_control.py:64-65 | an exchange keeps every write right after a flush |
| TemperatureControl.FlushedWritesStep | temperature_control.py:64-65 | one more event keeps every write right after a flush exactly when the trace kept it and a new write follows a flush |
| TemperatureControl.Controller.SetControlOn | temperature_control.py:58-66 | flush, then `set_command('2d', 1)` |
| TemperatureControl.Controller.SetControlOff | temperature_control.py:70-78 | flush, then `set_command('2d', 0)` |
| TemperatureControl.Controller.SetTemperature | temperature_control.py:86-108 | flush, then code `1c` with ceil(temperature * 100) |
| TemperatureControl.Controller.SetPBandwidth | temperature_control.py:112-117 | flush, then code `1d` with ceil(pb * 50) |
| TemperatureControl.Controller.SetIGain | temperature_control.py:121-126 | flush, then code `1e` with ceil(ig * 100) |
| TemperatureControl.Controller.SetDGain | temperature_control.py:130-135 | flush, then code `1f` with ceil(dg * 100) |
| TemperatureControl.Controller.Query | temperature_control.py:143-148 | flush, write the query, return the decoded reply value divided by the scale; the decoding error exactly when the reply does not decode |
| TemperatureControl.Controller.GetControlTemperature | temperature_control.py:143-148 | writes `*00010000000041\r`, returns the reply / 100 or the decoding error |
| TemperatureControl.Controller.GetPeripheryTemperature | temperature_control.py:152-157 | writes `*00060000000046\r`, returns the reply / 100 or the decoding error |
| TemperatureControl.Controller.GetSetTemperature | temperature_control.py:161-166 | writes `*00030000000043\r`, returns the reply / 100 or the decoding error |
| TemperatureControl.Controller.GetPBandwidth | temperature_control.py:171-176 | writes `*00510000000046\r`, returns the reply / 50 or the decoding error |
| TemperatureControl.Controller.GetIGain | temperature_control.py:180-185 | writes `*00520000000047\r`, returns the reply / 100 or the decoding error |
| TemperatureControl.Controller.GetDGain | temperature_control.py:189-194 | writes `*00530000000048\r`, returns the reply / 100 or the decoding error |
| TemperatureControl.ControlQueryIsCheckSum | temperature_control.py:147 | the hard-coded control query is `check_sum('01')` and its checksum is valid |
| TemperatureControl.PeripheryQueryIsCheckSum | temperature_control.py:156 | the periphery query is `check_sum('06')`, checksum valid |
| TemperatureControl.SetTemperatureQueryIsCheckSum | temperature_control.py:165 | the set-temperature query is `check_sum('03')`, checksum valid |
| TemperatureControl.PBandwidthQueryIsCheckSum | temperature_control.py:175 | the P-bandwidth query is `check_sum('51')`, checksum valid |
| TemperatureControl.IGainQueryIsCheckSum | temperature_control.py:184 | the I-gain query is `check_sum('52')`, checksum valid |
| TemperatureControl.DGainQueryIsCheckSum | temperature_control.py:193 | the D-gain query is `check_sum('53')`, checksum valid |
| TemperatureControl.Controller.LogTemperature | temperature_control.py:441-448 | needs the log open, as `self.logfile` must be assigned (genotyping_pcr.py:66 does so before the run); queries set, control and periphery temperature in that order, stopping at the first reply that does not decode; writes one log line exactly when all three decode |
| TemperatureControl.Controller.Poll | temperature_control.py:337-344 | one pass reads the control temperature, then logs a sample; it completes exactly when every reply decodes, and then returns the reading |
| TemperatureControl.CompletePass | temperature_control.py:337-344 | a pass whose replies all decode sends the control query and the three logging queries |
| TemperatureControl.CompleteLoop | temperature_control.py:335-345 | n passes whose replies all decode send n full polls |
| TemperatureControl.Controller.WaitPass | temperature_control.py:337-352 | one pass of the wait returns that pass's verdict: aborted, settled, timed out, or go on (only while elapsed <= limit) |
| TemperatureControl.VerdictAt | temperature_control.py:335-352 | pass i's verdict in `Verdicts` is `PassOutcome` of that pass (temperature_control.py:347-352): aborted on a reply that does not decode, settled when 0 < \|target - ct\| <= tolerance, timed out once elapsed > time_limit * 60 (`Limit`), else the loop goes on |
| TemperatureControl.Controller.WaitStep | temperature_control.py:335-352 | after i undecided passes, pass i leaves the wait undecided or is its first decided pass; when undecided, pass i + 1 still comes no later than the first pass over the time limit |
| TemperatureControl.DecidedByClock | temperature_control.py:350-352 | the wait never goes on past the first pass whose elapsed time is over the limit |
| TemperatureControl.Controller.WaitForSS | temperature_control.py:322-355 | tolerance defaults to 1 (`Tolerance`, temperature_control.py:331-332); the wait ends at the first pass with a verdict in `Verdicts`, no earlier pass had one, and each pass sent its queries and logged a sample unless it aborted |
| TemperatureControl.WaitAborted | temperature_control.py:337-346 | a wait ends aborted exactly when its last pass read a reply that does not decode |
| TemperatureControl.Controller.HoldPass | temperature_control.py:429-435 | one incubation pass: aborted on a reply that does not decode, else done exactly when the clock passed the hold time |
| TemperatureControl.HoldVerdictAt | temperature_control.py:427-435 | incubation pass i's verdict in `HoldVerdicts` is `HoldOutcome` of that pass: aborted, done once elapsed > time_sec, else go on |
| TemperatureControl.Controller.HoldStep | temperature_control.py:427-435 | after i undecided passes, pass i leaves the incubation undecided or is its first decided pass |
| TemperatureControl.HoldByClock | temperature_control.py:427-431 | the incubation never goes on past the first pass whose elapsed time is over the hold time |
| TemperatureControl.Controller.Incubate | temperature_control.py:415-437 | polls and logs while elapsed <= time_sec, ending by `IncubateEnds` (temperature_control.py:427): no pass for a negative time, otherwise up to the first pass with a verdict in `HoldVerdicts` |
| TemperatureControl.HoldAborted | temperature_control.py:429-435 | an incubation ends aborted exactly when its last pass read a reply that does not decode |
| TemperatureControl.Controller.PressQToExit | temperature_control.py:514-530 | prompts until a stripped line is `Q` or `q` (`Accepts`, temperature_control.py:521-523); then sends the RUN-flag clear once and closes the log; otherwise sends nothing |
| TemperatureControl.Controller.SetStage | temperature_control.py:556-560 | a stage exchanges P bandwidth, I gain, D gain, then the temperature |
| TemperatureControl.StageExchanges | temperature_control.py:556-560 | those four exchanges carry codes `1d`, `1e`, `1f`, `1c` with scales 50, 100, 100, 100 |
| TemperatureControl.StageWrites | temperature_control.py:556-560 | setting a stage writes exactly the stage's four settings |
| TemperatureControl.Controller.RunStage | temperature_control.py:556-562 | a stage sends its settings, waits for steady state at its temperature and the configured tolerance (not for the final hold), then incubates for its hold time unless the wait aborted; it ends aborted exactly when a reply did not decode; together these are `StageRan`; it logs `RunLogged` samples, one per pass of wait and incubation except the pass that aborted |
| TemperatureControl.Controller.RunStageOf | temperature_control.py:627-632 | the same for a given stage with or without the wait, as the final hold runs it, including the `RunLogged` samples |
| TemperatureControl.StageAborts | temperature_control.py:556-562 | a stage ends aborted exactly when the last pass of its wait or of its incubation read a reply that does not decode |
| TemperatureControl.RunWrites | temperature_control.py:556-562 | a stage writes its four settings and nothing else, however far its loops got |
| TemperatureControl.Controller.RunAt | temperature_control.py:560-562 | runs the next stage of the program after stages none of which aborted, extending the trace by its events and the log by its samples (`Logged`, the `RunLogged` of each stage run so far); every stage run so far ended by the wait and incubation rules of `StageRan` |
| TemperatureControl.Controller.RunCycle | temperature_control.py:566-618 | pass i sets `cycle = i + 1` and runs inner denaturation (only when i != 0), annealing and elongation at the next plan positions, stopping at a stage that aborts; every stage ends by the rules of `StageRan`, and the log holds `Logged` samples for the stages run |
| TemperatureControl.CyclePositions | temperature_control.py:566-618 | where the stages of pass i sit in the program |
| TemperatureControl.Controller.RunThroughLoop | temperature_control.py:549-618 | outer denaturation, then the loop passes, stopping at a stage that aborts; each stage ends by the rules of `StageRan` and `Logged` counts its samples; without an abort every stage before the final hold ran and `cycle` ends at loop_iter (unchanged for no pass) |
| TemperatureControl.Controller.FinishRun | temperature_control.py:620-637 | the final hold, with no steady-state wait and its incubation ending by `IncubateEnds`, then the exit prompt unless the hold aborted; the log gains the hold's samples and none for the prompt (`Logged`) |
| TemperatureControl.PlanFinal | temperature_control.py:620-632 | the final hold is the last stage, after the loop |
| TemperatureControl.Controller.PcrWoTrigger | temperature_control.py:534-637 | runs the program's stages in order, each sending its events and ending its wait and incubation by the replies and the clock (`StageRan`: first decided pass of `Verdicts`, no wait in the final hold, `IncubateEnds`), and stops after the first that aborts; the log gains `Logged` samples, one per pass except a pass that aborted; without an abort every stage ran, `cycle` ends at loop_iter, and the RUN-flag clear is sent and the log closed exactly when a prompt line is accepted |
| TemperatureControl.Controller.RunNext | temperature_control.py:566-618 | the next stage runs unless the last one aborted, whose exception skips it and sends and logs nothing |
| TemperatureControl.LoggedPasses | temperature_control.py:335-344 | over stages of which only the last may abort, the samples logged plus one for an abort equal all passes read, since the pass that aborts raises before its log line (temperature_control.py:428-434) |
| TemperatureControl.DecidedUnique | temperature_control.py:335-352 | a waiting loop ends at one pass only, the first with a verdict |
| TemperatureControl.StageRanUnique | temperature_control.py:556-562 | the replies and clock readings a stage reads determine how far its wait and its incubation get |
| TemperatureControl.RunsDetermined | temperature_control.py:534-637 | the replies and clock readings determine the whole program: how far every stage got and whether it aborted |
| TemperatureControl.RunsWrite | temperature_control.py:549-632 | the stages run so far write exactly the plan's settings for those stages, in order |
| TemperatureControl.ProgramWrites | temperature_control.py:534-637 | the whole run writes the plan's settings for the stages it ran, then the RUN-flag clear if the prompt was answered |
| TemperatureControl.SettersAppend | temperature_control.py:64-65 | the parameter writes of two traces in a row are those of each, in order |
| TemperatureControl.ExchangeAllWrites | temperature_control.py:556-560 | exchanging settings that are not queries writes exactly those settings |

## Left out

- Speech prompts (`mplayer` calls), console output and the `logging` messages: they only produce output.
- Reading the configuration file and logging its parameters. The model takes a validated `Profile` whose values are already of the right type.
- `monitor_temperature`, `monitor_parameters`, `sample_parameters`, `pull_trigger` and `pcr_wi_trigger`, which are outside the modelled core.
- The wall clock, `time.sleep` and the 0.1 s delay in `get_response`. Elapsed times come from the caller as one clock reading per pass.
- The serial line itself. Replies arrive as parameters, one per query. The telemetry values written to the log file are not kept, only how many lines were written.
- Floating-point rounding. Scaled values (`temperature * 100`) are exact reals, so a float product such as 1.1 * 100 landing just above 110 is not modelled.
- Auxil.GetResponse: Python 2's `int(s, 16)` is more lenient than `ResponseValue` on the four window characters. It accepts surrounding whitespace, a `0x` prefix and a leading sign. For a window `-3e8` the source returns `-1000.0000`, while the model reports ValueError. Underscores are rejected by both.
- Auxil.IsLong: the boundary between `int` and `long` is `sys.maxint` of a 64-bit build, 2^63 - 1. A 32-bit build would switch at 2^31 - 1.
- Command codes of any length other than two. Every call site uses two.
- TemperatureControl.Controller.Incubate: the log line of `incubate_reagent` names `target_temp`, which is undefined in that method and would raise NameError. The model treats the line as the log message it is evidently meant to be, and models the loop.
- TemperatureControl.Controller.PressQToExit: the source recurses once per rejected line and calls `sys.exit()` on an accepted one. The recursion ends in RuntimeError at Python's recursion limit, after about 1000 rejected lines. At end of input `readline()` returns `''` every time, so this happens at once. The model reads a finite sequence of lines and returns instead of exiting. When no line is accepted it reports that, and does not model the RuntimeError.
- TemperatureControl.Controller.LogTemperature: requires the log to be open, and so does every method that logs through it. `__init__` never assigns `self.logfile`, so calling these without the caller's assignment raises AttributeError. The model does not describe that case, because both callers assign the log before any run (genotyping_pcr.py:66, temperature_utils.py:147).
- TemperatureControl.Controller.PcrWoTrigger: on an aborted run the contract does not state where `cycle` stands. The source leaves it where the last `self.cycle = i + 1` put it.
- The exception itself. An aborted run sends no further frame and leaves the control on and the log open, as the source does. The model does not model the exception reaching the caller.
