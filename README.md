# check_tinkerforge in Dafny

A model of the monitoring plugin `check_tinkerforge.py` (NETWAYS): a Nagios/Icinga
style check that connects to a Tinkerforge brick daemon, discovers a Temperature
Bricklet through enumeration callbacks (or is told its UID), reads it, and prints
one status line before exiting with the status code.

Three parts of the plugin are modelled and proved:

- **`output`**, the status-line serialiser (`output.dfy`, module `StatusLine`, with
  `text.dfy` for `' '.join`): the line is `name: label`, then ` - ` and the lines
  joined by spaces when there are lines, then `|` and the `'key'=value` entries joined
  by single spaces when there is perfdata; the exit code is `state`. `None` for the
  lines or the perfdata behaves as an empty list or dict. The partner is a reader of
  the line (`StatusText`, `ParsePerfdata`): cutting at the first `|`, splitting on
  spaces and reading each entry gives back the status part and every perfdata pair.
- **The device registry** (`registry.dfy`, module `DeviceRegistry`, and the class
  `Plugin.TF` in `plugin.dfy`): `TF.__init__` starts with `device_type` and `temp`
  both None; `connect` records the requested device type; `cb_enumerate` ignores a
  disconnection and every bricklet that is not a Temperature Bricklet (device
  identifier 216), and otherwise overwrites both fields. `temp` is modelled as the
  UID the `Temperature` handle is bound to. Over a run of callbacks the last
  temperature bricklet announced wins, proved against an independent definition
  (`LastDiscovered`, the last announcing event of the sequence).
- **The bounded wait in `check`** (`discovery.dfy`, module `Discovery`, and
  `TF.Check`): a UID given binds the handle at once; otherwise the loop polls `temp`,
  sleeps one tick, counts it, and gives up with status 3 once the count exceeds the
  timeout. The callbacks that arrive during the i-th sleep are an input,
  `arrivals[i]`, so the concurrency of the callback thread becomes an explicit
  interleaving. `TF.Check` runs that loop as `TF.Poll`, a `while` loop whose
  invariant ties the remaining loop to the specification function `WaitFrom`; `WaitExact` then gives the exact
  tick count: the first poll that finds a bricklet, or `timeout + 1` ticks (1 for a
  negative timeout) when every poll up to tick count `timeout` found nothing.

Behaviour as the code has it, kept in the model:

- The loop sleeps a tenth of a second per tick but compares the tick count with the
  timeout in seconds, so it gives up after `timeout + 1` ticks (1 for a negative
  timeout). It gives up right after the final sleep without polling again, so a bricklet announced during that
  last sleep is recorded and still ignored (`Discovery.LateDiscoveryIgnored`).
- The timeout message keeps a literal `%s`; nothing is substituted into it.
- The warning and critical thresholds are accepted and never evaluated: a check that
  reads a temperature always has status 0, and its perfdata has exactly the one key
  `temperature`. No threshold parser or evaluator exists in the code, so none is
  modelled.
- A temperature bricklet announced before `check` runs sets `device_type` to
  `"temperature"`, whatever type was requested, so the run then reports temperature
  (`Plugin.RunFollowsEarlyDiscovery`); with another type requested and no such
  announcement the run prints nothing.
- Inside the plugin object `output` resolves to the module-level name that the main
  block rebinds to `output` with `name` set to the program name, so every report the
  object prints carries the program name (`prog`), not `Tinkerforge`.
- The reading is `get_temperature() / 100.0`, printed with Python 2's `str`. Module
  `Decimal` models that text for a reading in hundredths (`2150` prints `21.5`,
  `2105` prints `21.05`, `2100` prints `21.0`, `-5` prints `-0.05`) and proves that it
  has Python's canonical float form and reads back to the raw value, so the perfdata
  value determines the reading.

Inputs from outside the plugin are parameters: `authSucceeds` (how authentication
went), `early` (callbacks delivered after the enumerate request and before `check`),
`arrivals` (callbacks per sleep) and `sensor` (the raw reading of the bricklet with
a given UID).

## Model

| member | source | states |
|---|---|---|
| `StatusLine.Output` | check_tinkerforge.py:57-74 | the exit code of the report is `state` |
| `StatusLine.Render` | check_tinkerforge.py:63-71 | the line begins with the status part; it is longer than the status part exactly when there is perfdata, and then a `\|` follows the status part directly |
| `StatusLine.StatusPart` | check_tinkerforge.py:63-67 | the status part begins with `name: label`; it is longer than that exactly when there are lines, and then ` - ` follows |
| `StatusLine.PerfEntry` | check_tinkerforge.py:71 | an entry is a quote, the key, a quote, `=` and the value, in that order and nothing else |
| `StatusLine.OutputNoneIsEmpty` | check_tinkerforge.py:57-61 | `lines=None` prints as `[]` and `perfdata=None` as `{}`; with every default, the line is `Tinkerforge: label` with exit code 0 |
| `StatusLine.OutputBeginsWithNameAndLabel` | check_tinkerforge.py:63 | every line begins with `name + ": " + label` |
| `StatusLine.OutputRoundTrip` | check_tinkerforge.py:63-71 | with no `\|` in name, label or lines and no quote or space in keys or space in values: the text before the first `\|` is `name: label` plus ` - ` and the space-joined lines exactly when there are lines; a `\|` appears exactly when there is perfdata; reading the entries after it gives back the perfdata pairs in order |
| `StatusLine.ParseEntriesRoundTrip` | check_tinkerforge.py:71 | each entry `'key'=value` reads back as its pair when the key has no quote |
| `Text.Join` | check_tinkerforge.py:67-71 | joining no pieces gives the empty string and joining one piece gives that piece, with no separator |
| `Text.JoinEnds` | check_tinkerforge.py:67-71 | a joined string begins with the first piece and ends with the last |
| `Text.SplitJoin` | check_tinkerforge.py:71 | joining with one space and splitting on spaces gives back the pieces when no piece holds a space |
| `Text.JoinContains` | check_tinkerforge.py:67 | a character is in a joined string exactly when it is in a piece or in a separator that is placed |
| `Decimal.RenderCenti` | check_tinkerforge.py:155 | the printed reading has Python's float form: an optional minus sign, present exactly for a negative reading, a whole part with no leading zero unless it is `0`, a point, and one or two digits that end in `0` only when they are the single digit `0` |
| `Decimal.RenderCentiRoundTrip` | check_tinkerforge.py:155 | the printed reading reads back as the raw reading in hundredths, so distinct readings print differently |
| `Decimal.RenderCentiPlain` | check_tinkerforge.py:155 | the printed reading holds no space, quote or bar, so it is a well-formed perfdata value |
| `Decimal.RenderCentiExamples` | check_tinkerforge.py:155 | `str(raw / 100.0)` for 2150, 2105, 2100, -5 and 0 is `21.5`, `21.05`, `21.0`, `-0.05`, `0.0` |
| `DeviceRegistry.OnEnumerate` | check_tinkerforge.py:118-140 | a callback changes the registry only when it announces a present temperature bricklet, and then `temp` is its UID and `device_type` is `"temperature"` |
| `DeviceRegistry.DeliverAll` | check_tinkerforge.py:118-140 | a run of callbacks either leaves the registry as it was or leaves `device_type` `"temperature"` with a bricklet recorded; a recorded bricklet stays recorded; with no announcing callback nothing changes |
| `DeviceRegistry.OnEnumerateCases` | check_tinkerforge.py:118-140 | a disconnection or a non-temperature bricklet changes neither field; a temperature bricklet sets `temp` to its UID and `device_type` to `"temperature"` whatever they held |
| `DeviceRegistry.DeliverAllLastWins` | check_tinkerforge.py:138-140 | after any callbacks the registry holds the last temperature bricklet announced, and is unchanged when none was |
| `DeviceRegistry.LastDiscoveredSpec` | check_tinkerforge.py:138-140 | the last discovery is an announcing event that no later announcing event follows; there is none exactly when no event announces |
| `DeviceRegistry.DeliverAllKeepsDiscovery` | check_tinkerforge.py:119-120 | a recorded bricklet is never cleared by later callbacks, disconnections included |
| `DeviceRegistry.TwoDiscoveriesKeepSecond` | check_tinkerforge.py:138-140 | two temperature bricklets announced in turn leave only the second |
| `Discovery.WaitFrom` | check_tinkerforge.py:148-152 | a wait that does not give up ends with a bricklet recorded, and never counts fewer ticks than it started with |
| `Discovery.WaitExact` | check_tinkerforge.py:144-152 | with `LastPoll(timeout)` the larger of `timeout` and 0: the wait stops at the first poll that finds a bricklet, within `LastPoll(timeout)` ticks, with every earlier poll empty; it gives up exactly when all polls up to tick count `LastPoll(timeout)` are empty, after exactly `LastPoll(timeout) + 1` ticks (`timeout + 1`, or 1 for a negative timeout); the registry is the trace at the tick count |
| `Discovery.TimeoutIffNoDiscovery` | check_tinkerforge.py:148-152 | the wait gives up exactly when nothing was recorded before and no callback of the first `LastPoll(timeout)` ticks announces a temperature bricklet |
| `Discovery.TraceKeepsDiscovery` | check_tinkerforge.py:148 | once a poll finds a bricklet every later poll does too |
| `Discovery.NeverDiscoveredTimesOut` | check_tinkerforge.py:148-152 | with nothing recorded, no announcement at all and a timeout t >= 0, the wait gives up after exactly t + 1 ticks |
| `Discovery.FoundAtThirdTick` | check_tinkerforge.py:148-151 | a bricklet announced during the third sleep with timeout 10 ends the wait at tick 3 with that UID |
| `Discovery.LateDiscoveryIgnored` | check_tinkerforge.py:148-152 | with timeout 0 a bricklet announced during the only sleep is recorded, yet the wait gives up after 1 tick |
| `Plugin.TF.constructor` | check_tinkerforge.py:80-92 | the settings are stored and `device_type` and `temp` start as None |
| `Plugin.TF.Connect` | check_tinkerforge.py:94-111 | `device_type` becomes the requested type, `temp` is unchanged, and a configured secret that fails to authenticate returns the status-3 report |
| `Plugin.TF.CbEnumerate` | check_tinkerforge.py:118-140 | the new fields are `OnEnumerate` of the old ones and the event |
| `Plugin.TF.Deliver` | check_tinkerforge.py:118-140 | callbacks delivered in order leave the fields at `DeliverAll` of the old ones |
| `Plugin.ConnectOutcome` | check_tinkerforge.py:105-111 | `connect` prints exactly when a non-empty secret is configured and authentication fails, and then prints `prog: UNKNOWN - Cannot authenticate` with status 3 |
| `Plugin.CheckOutcome` | check_tinkerforge.py:142-163 | `check` prints exactly when `device_type` is `"temperature"`; the status is 0 or 3; status 0 comes with a bricklet recorded; status 3 only without a UID and then the report is the timeout report |
| `Plugin.RunOutcome` | check_tinkerforge.py:185-188 | a run prints with status 0 or 3; status 3 means failed authentication or no UID given; status 0 means authentication did not fail |
| `Plugin.TF.Poll` | check_tinkerforge.py:148-152 | the polling loop leaves the fields, the ticks counted and whether it gave up as `WaitFrom` from the old fields |
| `Plugin.TF.Check` | check_tinkerforge.py:142-163 | the new fields, the ticks counted and the report are those of `CheckOutcome` from the old fields |
| `Plugin.Run` | check_tinkerforge.py:185-188 | building the object, connecting, taking the early callbacks and checking prints `RunOutcome` |
| `Plugin.CheckReportsOnlyTemperature` | check_tinkerforge.py:143 | `check` prints exactly when `device_type` is `"temperature"`, and otherwise changes nothing |
| `Plugin.CheckWithUidSkipsWait` | check_tinkerforge.py:145-146 | a non-empty UID binds `temp` to it with no tick counted, and the report is that bricklet's reading |
| `Plugin.CheckStatusIsOkOrUnknown` | check_tinkerforge.py:152-163 | a printed report is either the bound bricklet's temperature with status 0, whatever the thresholds, or the timeout report with status 3, which needs the wait |
| `Plugin.CheckWaitExact` | check_tinkerforge.py:144-155 | with device type `"temperature"` and no UID, the check reports status 3 exactly when nothing was recorded and nothing announced in the first `LastPoll(timeout)` ticks, after `LastPoll(timeout) + 1` ticks (`timeout + 1`, or 1 for a negative timeout); otherwise it reads the bricklet of the first successful poll, within `LastPoll(timeout)` ticks |
| `Plugin.TemperatureReportPerfdata` | check_tinkerforge.py:155-163 | for a program name without `\|`: the temperature report has status 0, status text `prog: Temperature is <v> degrees celcius`, perfdata exactly `[("temperature", v)]`, and `v` reads back as the raw reading |
| `Plugin.TimeoutReportShape` | check_tinkerforge.py:152 | for a program name without `\|`: the timeout report is `prog: ` and the message, with status 3, no perfdata, and its `%s` printed as it stands |
| `Plugin.RunAuthenticationFailure` | check_tinkerforge.py:105-111 | a configured secret that fails to authenticate ends the run with `prog: UNKNOWN - Cannot authenticate` and status 3 |
| `Plugin.RunFollowsEarlyDiscovery` | check_tinkerforge.py:138-143 | with no UID given and authentication not failing, a temperature bricklet announced before `check` makes the run report the temperature of the last one announced, whatever type was requested |
| `Plugin.RunOtherTypeIsSilent` | check_tinkerforge.py:143 | another type requested and no temperature bricklet announced before `check`: the run prints nothing |

## Left out

- The `IPConnection` calls (`connect`, `authenticate`, `enumerate`, `register_callback`) and the `Temperature` handle's `get_temperature`: they belong to the tinkerforge library, which is not part of this model. Their outcomes are the inputs `authSucceeds`, `early`, `arrivals` and `sensor`; a failing `connect` or a failing reading (an exception and traceback) is not modelled.
- The value of `IPConnection.ENUMERATION_TYPE_DISCONNECTED` and the other enumeration types: only the distinction matters, so they are a datatype. `Temperature.DEVICE_IDENTIFIER` is taken as 216, the Temperature Bricklet's identifier.
- The `SIGALRM` watchdog (`handle_sigalrm`, `signal.alarm`) and `time.sleep`: OS signals and wall-clock time. Ticks are counted instead of seconds, so the race between the watchdog and the wait loop is not modelled.
- Real concurrency between the callback thread and the wait loop: callbacks arrive only in the sleeps between polls, in a given order; a callback arriving between the end of the wait and the reading (which would change the bricklet read) is not modelled.
- Perfdata as a Python dict: it is an ordered sequence of pairs, so dict iteration order and the uniqueness of keys do not come into it.
- `str(label)` on a non-string label: every caller passes a string.
- `Decimal.RenderCenti`: Python 2 prints a float with 12 significant digits and switches to exponent notation from 10^12 on; the model prints every reading exactly, which agrees for readings below 10^12 hundredths in magnitude (a bricklet reading is a 16-bit value).
- `sys.exit(state)` truncating the status to 8 bits: the exit code is the integer `state`. The modelled paths exit only with 0 and 3; the left-out `SIGALRM` watchdog (`handle_sigalrm`) exits with 2.
- The verbose diagnostics (`print` under `self.verbose`) and the `argparse` command line: output only. The object's `host`, `port` and `verbose` are stored and not otherwise used.
- The `type_humidity`, `type_ptc` and `type_ambient_light` names are constants; no code path of the plugin reports on those types.
