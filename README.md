# py_ble acquisition script: a verified model

`software/python/py_ble/app.py` connects to a BLE peripheral. It subscribes to the peripheral's
notify characteristic, collects the notifications in batches, and appends each full batch to a
CSV file. A console loop sends single bytes back to the peripheral's write characteristic. This
project models the deterministic logic underneath the Bluetooth and asyncio plumbing, and proves
its properties in Dafny:

- `text.dfy` (module `Text`): bytes, `str.strip()`, `int()` on decimal text, and `str()` of an
  integer.
  - `int()` skips fewer characters than `str.strip()` removes. It skips space and `\t \n \v \f \r`,
    but not the separators `\x1c` to `\x1f`. Both sets are modelled (`Whitespace`).
  - `int()` also enforces CPython's default limit of 4300 digits (`MaxStrDigits`).
  - It proves that `int(str(n)) == n` for every n of at most 4300 digits, also with whitespace
    around the digits that `int()` skips. A longer text is the ValueError of the limit.
- `csv_sink.dfy` (module `CsvSink`): `DataToFile.write_to_csv` as a class whose file is its
  `contents` string. `CsvAppend` specifies it.
  - The error paths are the length exception and the `struct.error` of a payload that is not one
    byte.
  - An empty file receives only the header.
  - A reader (`ReadRows`) is the partner of the row format. Rows appended to a non-empty file
    read back one per index, in order.
- `connection.dfy` (module `BleConnection`): the `Connection` object as a class. It covers:
  - the three `rx_` lists and `notification_handler`, `record_time_info` and `clear_lists`;
  - the `connected`/`client`/`connected_device` flags, `connect`, `on_disconnect` and one step
    of `manager`;
  - `select_device` with its prompt loop.

  Ghost logs record every payload received (`received`) and every call of the data handler
  (`dumps`). The invariant `Valid()` ties them to the lists. Flush counting: from an empty
  buffer, k notifications whose flushes all return normally (every payload one byte) give
  k div `dump_size` flushes and leave k mod `dump_size` entries. A flush that raises leaves the
  lists in place, so the count is then different.
- `console.dfy` (module `Console`): one pass of `user_console_manager`, with
  `int(s).to_bytes(1, "little")`. The general little-endian encoder is proved to be the inverse
  of its decoder.

The clock is an integer count of microseconds, given as a parameter. The transport's behaviour
(`connect`, `is_connected`, `start_notify`, `discover`) appears only as an outcome parameter, and
the operator's typed lines are a sequence of strings. The data handler of `Connection` is the
one the application wires in: a `DataToFile` object whose `write_to_csv` it calls.

Python's behaviour is modelled as written. Some behaviours of the script are easy to miss:

- Non-integer selection input ends `select_device` with a `TypeError` and is not re-prompted.
  If `int()` fails, `response` is still a `str`, and `response > -1` (`app.py:140`) raises.
  `Selection.NotAnInteger` models this. Nothing in `manager`'s forever loop catches the
  exception, so it ends the `manager` task for good. `Manage` then returns
  `SelectStep(NotAnInteger(..))`, and no later manager step happens.
- The console line goes to `int()` without `strip()` (`app.py:177`). A line padded with `\x1c` to
  `\x1f` is therefore a ValueError at the console, while the same padding is stripped from a
  selection response (`app.py:136`).
- A ValueError or OverflowError from the console line (`app.py:177`) likewise ends
  `user_console_manager` for good. A `ConsoleStep` that returns `ValueError` or `OverflowError`
  is therefore the console's last pass.
- The delay is `timedelta.microseconds`: only the sub-second part of the gap, in [0, 10^6).
- The batch that arrives while the file is empty only produces the header. Its rows are lost,
  yet the lists are cleared.

When `write_to_csv` raises (a payload that is not one byte), the exception leaves
`notification_handler` before `clear_lists`. The lists then keep their entries.

## Model

| member | source | states |
|---|---|---|
| Text.NatTextValue | software/python/py_ble/app.py:54 | the digits `NatText` writes for a delay denote that delay |
| Text.ParseIntText | software/python/py_ble/app.py:177 | `ParseInt(IntText(n))`, that is `int(str(n))`, is n for every integer n of at most 4300 digits, and the ValueError of the digit limit for a longer one |
| Text.ParseIntPadded | software/python/py_ble/app.py:177 | the whitespace `int()` skips (space, `\t \n \v \f \r`) around `IntText(n)` does not change what `ParseInt` reads: n, or the ValueError past 4300 digits |
| Text.ParseIntSeparator | software/python/py_ble/app.py:177 | a text that starts with one of the separators `\x1c` to `\x1f`, which `strip()` removes but `int()` does not skip, is a ValueError for `int()` |
| Text.StripLeftShape | software/python/py_ble/app.py:136 | `StripLeft`, for the whitespace of `strip()` or that of `int()`, removes exactly a leading run of that whitespace; the rest is a suffix that is empty or starts with a non-space |
| Text.StripRightShape | software/python/py_ble/app.py:136 | `StripRight`, for either whitespace set, removes exactly a trailing run of that whitespace; the rest is a prefix that is empty or ends with a non-space |
| CsvSink.Header | software/python/py_ble/app.py:49-50 | the header is exactly `time,delay,data_value,\n` |
| CsvSink.DecodeBool | software/python/py_ble/app.py:54 | `struct.unpack('?', p)` succeeds iff p is one byte, and is then True iff that byte is non-zero |
| CsvSink.FirstUndecodable | software/python/py_ble/app.py:52-54 | the loop's stopping index: every earlier payload is one byte and the payload there is not |
| CsvSink.CsvAppend | software/python/py_ble/app.py:41-54 | the length exception iff the lengths differ, and the file is then untouched; an empty file gets only the header; a non-empty file keeps its contents as a prefix; a decode error names an undecodable payload; on a non-empty file with equal lengths the call ends with the decode error at the first payload that is not one byte, and normally if there is none |
| CsvSink.ReadFormattedRow | software/python/py_ble/app.py:53-54 | the row that `FormatRow` writes, `"{time}, {delay}, {value}, \n\n"`, reads back as its time text, delay and value |
| CsvSink.RowsReadBack | software/python/py_ble/app.py:52-54 | the text `RowsText` writes for a decodable batch reads back one row per index, in index order |
| CsvSink.AppendedRowsReadBack | software/python/py_ble/app.py:46-54 | what a non-empty file gains reads back as the batch's rows up to the first undecodable payload, or as all of them |
| CsvSink.DataToFile.constructor | software/python/py_ble/app.py:34-35 | the sink keeps its path, and its file starts with the given contents |
| CsvSink.DataToFile.WriteToCsv | software/python/py_ble/app.py:41-54 | the new contents and the outcome are exactly `CsvAppend` of the old contents |
| CsvSink.DataToFile.AppendRows | software/python/py_ble/app.py:51-54 | the loop appends the rows of the payloads before the first undecodable one, in order, then stops with that index or ends normally |
| BleConnection.DelayMicros | software/python/py_ble/app.py:152-153 | the delay lies in [0, 10^6), differs from the gap by whole seconds, and equals the gap when that is under a second |
| BleConnection.ResponsePadded | software/python/py_ble/app.py:136 | any `strip()` whitespace, the separators `\x1c` to `\x1f` included, around an integer's text leaves `ParseResponse` reading that integer, or the ValueError past 4300 digits |
| BleConnection.ParseResponses | software/python/py_ble/app.py:136 | one `ParseResponse` result, that is `int(response.strip())`, per response, in order |
| BleConnection.PromptLoop | software/python/py_ble/app.py:133-143 | the prompt loop ends exactly as the `Choose` definition says: on the first valid index, on the first non-integer line, or still prompting |
| BleConnection.ChooseFrom | software/python/py_ble/app.py:133-143 | over the parsed responses, the loop selects index i only when a response parses to i and 0 <= i < len(devices); it ends with the TypeError at the first non-integer line; every line it read before is an out-of-range integer |
| BleConnection.SelectionExamples | software/python/py_ble/app.py:133-143 | "abc" ends with the TypeError, "-1" and "5" re-prompt and " 2 " then selects device 2; "3" of three devices keeps prompting |
| BleConnection.FlushCount | software/python/py_ble/app.py:164-167 | from fill f < dump_size, k notifications whose flushes all return normally leave (f+k) mod dump_size entries and flush (f+k) div dump_size times |
| BleConnection.FlushesFromEmpty | software/python/py_ble/app.py:161-167 | from an empty buffer, k notifications whose flushes all return normally flush k div dump_size times; fewer than dump_size flush nothing; exactly dump_size flush once and leave the buffer empty |
| BleConnection.NotifyAll | software/python/py_ble/app.py:161-167 | k notifications of one-byte payloads into an empty buffer append exactly k div dump_size dumps (`FlushesAfter`) after the earlier ones, each a batch of dump_size payloads that `write_to_csv` accepted; the buffer keeps the last k mod dump_size payloads (`FillAfter`), `last_packet_time` is the last arrival time, and every payload is recorded in arrival order; the flags and the client lie outside the frame |
| BleConnection.NotifyDecodable | software/python/py_ble/app.py:161-167 | one notification of a one-byte payload on a buffer of one-byte payloads: on filling the buffer it appends one dump holding the buffer plus the payload, written normally, and empties the buffer; otherwise it appends the payload and adds no dump; `last_packet_time` becomes now |
| BleConnection.NotifyEach | software/python/py_ble/app.py:161-167 | k notifications of one-byte payloads into an empty buffer: the dump log gains q full batches of dump_size payloads that `write_to_csv` accepted, keeping the earlier dumps, with k = q * dump_size + the buffered count, below dump_size; the buffer holds the last payloads, `last_packet_time` is the last arrival time, every payload is recorded in order |
| BleConnection.StartApplication | software/python/py_ble/app.py:193-204 | the application's wiring: a `DataToFile` as data handler, the two characteristic UUIDs and the default `data_dump_size` of 100; not connected, no client, empty lists |
| BleConnection.Connection.constructor | software/python/py_ble/app.py:61-81 | the fields are as given, `last_packet_time` is the creation time, not connected, no device or client, the lists are empty |
| BleConnection.Connection.OnDisconnect | software/python/py_ble/app.py:83-86 | clears only `connected`; the client and the device stay |
| BleConnection.Connection.Connect | software/python/py_ble/app.py:102-121 | no-op when `connected`; otherwise `connected` becomes the transport's answer; exceptions are swallowed; the invariant is kept |
| BleConnection.Connection.SelectDevice | software/python/py_ble/app.py:123-147 | the outcome is `Choose` of the responses; a selection sets the device and a client for its address; any other outcome changes neither |
| BleConnection.Connection.SetDevice | software/python/py_ble/app.py:146-147 | `connected_device` becomes the device and `client` a client for its address, keeping the invariant |
| BleConnection.Connection.Manage | software/python/py_ble/app.py:93-100 | with a client, one step calls connect and keeps the client and the device; without one, it runs `Choose` over the responses and leaves `connected` alone; a selection of index i sets the device to device i and the client to one for its address, and any other outcome leaves client and device unchanged |
| BleConnection.Connection.RecordTimeInfo | software/python/py_ble/app.py:149-154 | appends `now` and its delay, then `last_packet_time` becomes `now` |
| BleConnection.Connection.ClearLists | software/python/py_ble/app.py:156-159 | all three lists become empty |
| BleConnection.Connection.NotificationHandler | software/python/py_ble/app.py:161-167 | appends one payload, time and delay, keeping the lists equally long and the delays in range; the handler is called exactly when the length reaches dump_size, with the lists in arrival order; the lists are then empty if it returned normally; the buffer stays below dump_size |
| BleConnection.Connection.HandOver | software/python/py_ble/app.py:165-167 | the full batch goes to `write_to_csv`, and the lists are cleared only when the call returns normally |
| BleConnection.ReconnectAfterDisconnect | software/python/py_ble/app.py:83-97 | after a disconnect, the next manager step calls connect on the same client and does not select again; it is connected again exactly when the transport connects and `start_notify` either succeeds or raises; the buffer and the logs lie outside the frame |
| Console.LittleEndianValue | software/python/py_ble/app.py:177 | the value of k little-endian bytes is below 256^k |
| Console.ToBytesLittle | software/python/py_ble/app.py:177 | `to_bytes` succeeds iff 0 <= n < 256^length; the bytes then number `length` and denote n |
| Console.ToBytesOfValue | software/python/py_ble/app.py:177 | every byte string is the encoding of its own value: encode after decode is the identity |
| Console.OneByte | software/python/py_ble/app.py:177 | `to_bytes(1, "little")` of n is the byte n for 0 <= n <= 255, and an OverflowError otherwise |
| Console.Encode | software/python/py_ble/app.py:176-178 | ValueError iff the line is no integer; OverflowError iff it is one outside 0..255; otherwise that single byte is sent to the write characteristic |
| Console.ConsoleStep | software/python/py_ble/app.py:174-181 | on a connection that keeps its invariant, the console sleeps exactly while it is not connected, and while connected it encodes and sends the line |
| Console.ConnectedConsoleSendsByte | software/python/py_ble/app.py:175-178 | while connected, typing the decimal text of 0..255, with whitespace that `int()` skips around it, writes exactly that byte to the write characteristic |
| Console.ConsoleSendsByte | software/python/py_ble/app.py:176-178 | typing the decimal text of 0..255, with whitespace that `int()` skips around it (space, `\t \n \v \f \r`), sends exactly that byte |
| Console.ConsoleRejectsSeparator | software/python/py_ble/app.py:177 | a console line that starts with a separator `\x1c` to `\x1f` is a ValueError, whatever follows, because the line is not stripped |
| Console.ConsoleOverflows | software/python/py_ble/app.py:177 | the text of an integer outside 0..255 gives OverflowError when it has at most 4300 digits, and ValueError when it has more |

## Left out

- The BLE transport (`BleakClient.connect`, `is_connected`, `start_notify`, `stop_notify`,
  `write_gatt_char`, `discover`, `set_disconnected_callback`): foreign library I/O. Its outcomes
  are parameters: `ConnectOutcome` for connect, and the device list for discovery.
- The asyncio event loop, `ensure_future`, every `asyncio.sleep`, and the forever loops of
  `manager`, `user_console_manager` and `main`: scheduling, not logic. Single iterations are
  modelled (`Manage`, `ConsoleStep`).
- BleConnection.Connection.Connect: the poll loop `while True: if not self.connected: break`
  (`app.py:114-117`) is not modelled. In the program, `connect` waits there until
  `on_disconnect` runs. The model returns with `connected` true, and the disconnect is a separate
  call (`OnDisconnect`).
- `cleanup()` and the `KeyboardInterrupt`/`finally` shutdown path: BLE I/O at exit.
- `print`, `ainput` and `datetime.now()`: console I/O and the clock. Typed lines and times are
  parameters.
- File I/O (`open`, `os.stat`) and the output-path choice from `os.environ` and `os.listdir`
  (`app.py:23-27`): the file is modelled by its contents, and `path` is only stored.
- `str(datetime)`: an opaque function `timeText` held by the sink. The read-back lemmas assume
  that its text contains no comma.
- The full grammar of Python's `int()`: underscores between digits, non-ASCII digits and
  non-ASCII whitespace. The model reads the ASCII whitespace that `int()` skips, one optional
  sign and at most 4300 ASCII digits.
- The digit limit is modelled at CPython's default of 4300 (CPython 3.11 and later, and the 2022
  security releases of 3.7 to 3.10). Older interpreters have no limit, and
  `sys.set_int_max_str_digits` or `PYTHONINTMAXSTRDIGITS` can change it. Neither is modelled.
- Text.IntText: `str()` of an integer with more than 4300 digits raises ValueError, and `IntText`
  does not. It is only ever applied to delays, which have at most six digits, and in lemmas,
  whose statements distinguish the texts past the limit.
- The `loop` constructor parameter and `DataToFile.dummy`: neither takes part in the logic.
- BleConnection.Connection.OnDisconnect: the message printed from `connected_device.name` is not
  modelled. That includes the `AttributeError` it would raise without a selected device, which
  cannot happen while a client exists.
- The `sender` argument of `notification_handler` is unused by the script and not modelled.
- BleConnection.NotifyAll: the flush count is stated only for one-byte payloads. After an
  undecodable payload reaches a non-empty file, `write_to_csv` raises and the lists are not
  cleared, so every later notification flushes again. `NotificationHandler` describes that case
  call by call, but no count over many calls is stated for it.
