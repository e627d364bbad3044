# Network equipment update session, in Dafny

`networkFileRW.py` keeps two inventories, `routers` and `switches`, each
mapping a device name to its IP address. An operator updates devices at
the console. The device prompt (`getValidDevice`) lowers each line and
accepts it when it names a router, a switch or the quit sentinel `x`. The
address prompt (`getValidIP`) accepts a line when `split('.')` gives
exactly four pieces and `int()` turns each piece into a value from 0 to
255. Every rejected line is counted and appended, verbatim, to a log. The
loop in `main` writes an accepted address into `routers` when the device
name contains the letter `r` and into `switches` otherwise. It records the
address in `updated` and counts the update.

The model describes one session as a pure function of the inventory and
the finite sequence of lines typed. Running out of lines is the outcome
`EndOfInput`, which is where Python's `input()` raises `EOFError`.
Quitting is the outcome `Finished` with the final state.

Modules, one per file:

- `Wrappers` (`wrappers.dfy`): `Option`.
- `Text` (`text.dfy`): the ASCII behaviour of `str.lower()`, the stripping
  of tab, line feed, vertical tab, form feed, carriage return and space
  that `int()` performs around its argument, `str.split(sep)` and
  `sep.join`.
- `PyInt` (`pyint.dfy`): `int(text)` in base 10 on ASCII text. It accepts
  surrounding whitespace, one optional sign, leading zeros and single
  underscores between digits. `str(int)` is included as its inverse.
- `Address` (`address.dfy`): the IP check of `getValidIP`. `CheckIP` is the
  check as the source runs it, with its early `break`.
- `Inventory` (`inventory.dfy`): the two prompts, the update step and the
  loop of `main`, following the code's own structure of nested loops. Each
  prompt reads from a cursor into the input and returns the cursor just
  past the line it accepted.
- `Machine` (`machine.dfy`): the same session as a one-line-at-a-time state
  machine. Its states are waiting for a device, waiting for an address for
  a chosen device, and terminated. `RunSessionIsMachine` proves that it
  agrees with `Inventory.RunSession` on every input. The session invariant
  is proved one step at a time on the machine.
- `Sessions` (`sessions.dfy`): whole-session guarantees, plus one-round
  lemmas that unfold the loop.
- `Scenarios` (`scenarios.dfy`): concrete `int()` and IP checks, and
  concrete sessions.

Three behaviours of the code are easy to misread, and the model keeps them
as written:

- **Write target.** The map an address is written into is chosen by the
  letter `r` in the device name (networkFileRW.py:148), not by which map
  holds the device. A switch called `core1` is
  therefore updated in `routers`, gaining a new key there, while its old
  entry in `switches` stays as it was (`Scenarios.SwitchNamedWithR`). What
  stays invariant is the set of names across both maps, not each map's own
  key set.
- **Quit sentinel.** `x` ends the session even when an inventory device is
  itself named `x`. `getValidDevice` returns it from the router or switch
  branch, and `main` then compares it with `'x'` first.
- **`int()` leniency.** `int()` accepts `-0`, ` 1`, `007` and `1_0`, so
  lines such as `-0.0.0.0`, ` 10.0.0.5 ` or `010.0.0.1` pass the IP check.

## Model

| member | source | states |
|---|---|---|
| Text.LowerSpec | networkFileRW.py:34 | the lowered line differs from the typed one only in ASCII capitals, which become the matching small letters, position by position |
| Text.LowerIdempotent | networkFileRW.py:34 | lowering a lowered name changes nothing, so every name the device prompt returns is already lower-case |
| Text.SplitSpec | networkFileRW.py:49 | `split('.')` gives one more piece than the line has dots, and no piece contains a dot |
| Text.JoinSplit | networkFileRW.py:49 | joining the pieces with `.` gives back the line, so splitting loses nothing |
| Text.SplitJoin | networkFileRW.py:49 | dot-free pieces joined with `.` split back into exactly those pieces |
| Text.StripSpec | networkFileRW.py:62 | the whitespace `int()` ignores is exactly the leading and trailing run of whitespace; what remains is a slice of the input that neither starts nor ends with whitespace |
| Text.StripPadded | networkFileRW.py:62 | adding whitespace around a text leaves its stripped form unchanged |
| PyInt.ParseInt | networkFileRW.py:62 | `int(piece)` as a definition: strip the ASCII blanks `int()` skips, then an optional sign and a digit run with single underscores; every other text is `None`, the `ValueError` of networkFileRW.py:66. Its behaviour is stated by the `ParseInt*` lemmas below |
| PyInt.ParseIntRender | networkFileRW.py:62 | `int(str(v)) == v` for every integer, negative ones included |
| PyInt.ParseIntOfRun | networkFileRW.py:62 | a run of digits with single underscores parses to the number it denotes |
| PyInt.ParseIntSigned | networkFileRW.py:62 | a `-` or `+` in front of a digit run gives its value with that sign, so `int("-0") == 0` |
| PyInt.ParseIntPadded | networkFileRW.py:62 | whitespace around a piece never changes what `int()` returns |
| PyInt.ParseIntBlank | networkFileRW.py:62-68 | an empty or all-whitespace piece raises `ValueError` |
| PyInt.ParseIntLeadingZero | networkFileRW.py:62 | a leading zero is accepted and does not change the value |
| PyInt.ParseIntUnderscore | networkFileRW.py:62 | an underscore between two digit runs is accepted and ignored |
| Address.ValidIP | networkFileRW.py:49-75 | the acceptance test as a definition: `split('.')` gives four pieces and each parses to 0..255. `CheckIP` and the `ValidIP*` lemmas below state it |
| Address.CheckIP | networkFileRW.py:49-75 | the source's loop, with its piece-count test and the `break` at the first bad piece, accepts exactly the lines `ValidIP` describes, and every accepted line has exactly three dots |
| Address.WrongPieceCountRejected | networkFileRW.py:52-56 | a line without exactly three dots is rejected |
| Address.ValidIPPieces | networkFileRW.py:49-75 | an accepted line is four dot-free octets joined by dots |
| Address.ValidIPOfPieces | networkFileRW.py:49-75 | conversely, four dot-free octets joined by dots are accepted |
| Address.RenderIsOctet | networkFileRW.py:62-65 | the decimal text of an integer passes the per-piece test exactly when the integer lies in 0..255 |
| Address.ValidFormatIP | networkFileRW.py:49-75 | a dotted-decimal address built from four integers is accepted exactly when all four lie in 0..255 |
| Inventory.GetValidDevice | networkFileRW.py:30-42 | a returned device is the lowered form of a line that was read, and it names a router, a switch or `x` |
| Inventory.GetValidDeviceSpec | networkFileRW.py:30-42 | the device prompt returns the first line, lowered, that names a router, a switch or `x`, after skipping all lines before it; input runs out exactly when no remaining line qualifies |
| Inventory.GetValidDeviceStep | networkFileRW.py:34-42 | a single line at the device prompt is accepted, lowered, if it qualifies; otherwise it is skipped and the state is unchanged |
| Inventory.GetValidIP | networkFileRW.py:45-75 | a returned address is the accepted line itself, unchanged |
| Inventory.GetValidIPSpec | networkFileRW.py:45-75 | the address prompt returns the first line that passes the IP check; every line before it failed, and input runs out exactly when no remaining line passes |
| Inventory.GetValidIPLog | networkFileRW.py:52-72 | the log grows by exactly the rejected lines, verbatim and in order, and the count grows by their number |
| Inventory.GetValidIPStep | networkFileRW.py:47-75 | a single line at the address prompt is accepted if valid; otherwise it adds one to the count, is appended to the end of the log, and the prompt repeats |
| Inventory.ApplyUpdate | networkFileRW.py:147-157 | the update step as a definition: write into `routers` when the name contains `r`, into `switches` otherwise, record the address in `updated` and count the update. `Inventory.ApplyUpdateSpec` states it |
| Inventory.ApplyUpdateSpec | networkFileRW.py:147-157 | a name containing `r` is written into `routers` and `switches` is untouched, and otherwise the reverse; no other entry changes; the written map's keys gain exactly the device and no other key; the names across both maps gain at most the device; `updated` maps the device to the address; the update count goes up by one |
| Inventory.RunSession | networkFileRW.py:136-159 | the loop of `main` as a definition: device prompt, quit on `x`, address prompt, update, repeat. `Machine.RunSessionIsMachine`, `Sessions.FinishedSession` and the round lemmas state it |
| Machine.Step | networkFileRW.py:136-159 | one line read at the current prompt, as a definition of the line-at-a-time machine. `Machine.RunSessionIsMachine` ties it to `Inventory.RunSession`, and `Machine.StepPreservesInvariant` states what it keeps |
| Machine.DevicePromptIsMachine | networkFileRW.py:30-42 | the device prompt consumes exactly the lines the machine spends waiting for a device |
| Machine.IPPromptIsMachine | networkFileRW.py:45-75 | the address prompt consumes exactly the lines the machine spends waiting for an address, and leaves it in the same state |
| Machine.RunTerminated | networkFileRW.py:139-141 | after `x` the rest of the input is ignored |
| Machine.RunSessionIsMachine | networkFileRW.py:136-159 | the nested prompt loops of `main` and the line-at-a-time machine give the same outcome on every input |
| Machine.StartInvariant | networkFileRW.py:119-124 | the initial state satisfies the session invariant |
| Machine.ApplyUpdatePlaces | networkFileRW.py:147-157 | after an update, each updated device's last address is in the map its name selects |
| Machine.ApplyUpdateLeavesOthers | networkFileRW.py:147-153 | every entry that no update wrote to still holds its original address |
| Machine.ApplyUpdateWellFormed | networkFileRW.py:138-157 | every key of `updated` is a lower-case inventory name other than `x`, and holds an accepted address |
| Machine.ApplyUpdatePreservesInvariant | networkFileRW.py:147-157 | the update step keeps the whole session invariant |
| Machine.StepPreservesInvariant | networkFileRW.py:136-159 | every line read at either prompt keeps the session invariant |
| Machine.RunPreservesInvariant | networkFileRW.py:136-159 | any sequence of lines keeps the session invariant |
| Machine.SessionInvariant | networkFileRW.py:136-159 | every finished session satisfies the invariant, relative to the inventory it started from |
| Sessions.QuitFirst | networkFileRW.py:138-141 | quitting at the first prompt, in either case, ends the session with nothing updated and both counters at zero |
| Sessions.NoDeviceRunsOut | networkFileRW.py:30-42 | input that never names a device or `x` runs out at the device prompt |
| Sessions.FinishedSession | networkFileRW.py:136-159 | a finished session has a count equal to its log length, and only failing lines in the log. Updated devices are lower-case inventory names other than `x` with valid addresses, placed in the map their name selects. The names across both maps are those of the starting inventory, and there are no more updated devices than updates counted (repeated updates overwrite) |
| Sessions.RunLogsInputLines | networkFileRW.py:48-54 | every logged line is a line from the input |
| Sessions.LogHoldsInputLines | networkFileRW.py:48-54 | every invalid address a finished session reports is a line the operator typed |
| Sessions.UpdateRound | networkFileRW.py:136-159 | one round with a good address applies the update and continues two lines later |
| Sessions.RetryRound | networkFileRW.py:136-159 | one round with one rejected address first counts and logs it, then applies the second address |
| Sessions.QuitRound | networkFileRW.py:138-141 | `x` ends the loop where it is typed, whatever follows |
| Scenarios.ParseIntExamples | networkFileRW.py:62 | `int()` accepts `-0`, ` 1` and `1_0`, and rejects the empty string, `1__0`, `_1` and `1a` |
| Scenarios.ParseIntZeroPadded | networkFileRW.py:62 | `int("007") == 7` |
| Scenarios.AcceptsPlainAddress | networkFileRW.py:49-75 | `10.0.0.5` and `10.0.0.6` pass the IP check |
| Scenarios.AcceptsPaddedAddress | networkFileRW.py:49-75 | ` 10.0.0.5 ` passes, because `int()` strips whitespace |
| Scenarios.RejectsLargeOctet | networkFileRW.py:63-65 | `999.1.1.1` fails on range |
| Scenarios.RejectsNegativeOctet | networkFileRW.py:63-65 | `-1.1.1.1` fails on range |
| Scenarios.RejectsEmptyOctet | networkFileRW.py:66-68 | `1..2.3` fails because `int('')` raises |
| Scenarios.RejectsSeparatorOctet | networkFileRW.py:62-73 | `int()` skips a tab and a line feed around `10`, but a piece led by 0x1C raises `ValueError`, so `\x1c10.0.0.5` is rejected |
| Scenarios.RejectsPieceCounts | networkFileRW.py:52-56 | `1.2.3` and `1.2.3.4.5` fail on the piece count |
| Scenarios.RouterUpdated | networkFileRW.py:136-159 | device, bad address, good address, `x` gives one update, one logged line and a count of one |
| Scenarios.RouterUpdatedExample | networkFileRW.py:136-159 | the same session with `999.1.1.1` mistyped before `10.0.0.5` |
| Scenarios.SwitchOverwritten | networkFileRW.py:155-157 | updating one switch twice, the second time in capitals, records one device and counts two updates |
| Scenarios.SwitchNamedWithR | networkFileRW.py:148-153 | a switch whose name contains `r` is written into `routers`, and its `switches` entry is left unchanged |
| Scenarios.UnknownDeviceSkipped | networkFileRW.py:34-42 | a name outside the inventory is skipped without changing the state |
| Scenarios.RunsOutAtAddress | networkFileRW.py:48 | input that ends at the address prompt gives `EndOfInput` |

## Left out

- The import guard for `json` (networkFileRW.py:9-13) is not modelled. It only matters when the standard library is broken.
- Reading the inventories from `equip_r.txt` and `equip_s.txt` is not modelled, and neither are the built-in fallback inventories (networkFileRW.py:81-116). The inventory is a parameter of the session.
- Printing is not modelled: the inventory listing, prompts, "not in the network inventory" messages, the sorry message, confirmations and the summary (networkFileRW.py:129-134, 158, 161-164). It does not affect state.
- Writing `updated` and the invalid-address log as JSON is not modelled (networkFileRW.py:166-183). The model ends with the final state, which is what those writes serialise.
- Dictionary iteration order is not modelled. It only affects the printed listing and the JSON layout.
- `EOFError` is modelled as the outcome `EndOfInput`, with no state. The program stops with a traceback and writes nothing.
- `str.lower()` and `int()` are modelled on ASCII only. Non-ASCII capitals, Unicode digits and Unicode whitespace accepted by `int()` are not modelled. The whitespace `int()` skips is tab through carriage return and space; the information separators 0x1C-0x1F are not skipped (`Scenarios.RejectsSeparatorOctet`).
- `getValidIP` appends to the caller's list in place and returns only the address and the count. The model returns the extended log alongside them in `Accepted`. In a run that finishes, this has the same effect.
- PyInt.ParseInt: the cap on the number of digits `int()` converts (4300 by default since Python 3.11, leading zeros included, set by `PYTHONINTMAXSTRDIGITS` and off when 0) is not modelled, so a piece of more than 4300 digits such as 4300 zeros followed by `1` parses here but raises `ValueError` on those versions. `PyInt.ParseIntOfRun`, `PyInt.ParseIntLeadingZero`, `PyInt.ParseIntUnderscore` and `PyInt.ParseIntRender` describe `int()` without that cap. The cap depends on the interpreter version and its configuration, and no octet of an address needs more than three digits.
- Text.Lower: the function's own contract states only that the length is kept. The character-by-character behaviour is stated by `Text.LowerSpec`, so that callers do not pay for it.
- Inventory.GetValidIP: the function's own contract states only which line was accepted. The log and count growth are stated by `Inventory.GetValidIPLog` and `Inventory.GetValidIPStep`.
