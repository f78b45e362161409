/** The connection manager of the acquisition script: the Connection object with its
    notification batch buffer, its connection flags, device selection and one step of the
    manager loop. Transport calls appear only as their outcomes, given as parameters; clock
    readings are integer microseconds, given as parameters. */
module BleConnection {
  import opened Text
  import opened CsvSink

  /** The notify characteristic the script subscribes to. */
  const ReadCharacteristic: string := "00001524-1212-efde-1523-785feabcd123"
  /** The characteristic the console writes to. */
  const WriteCharacteristic: string := "00001525-1212-efde-1523-785feabcd123"
  /** data_dump_size when the caller gives none. */
  const DefaultDumpSize: int := 100
  const MicrosPerSecond: int := 1000000

  /** A discovered peripheral. */
  datatype Device = Device(name: string, address: string)

  /** A BleakClient, bound to the address of the device it was made for. */
  datatype Client = Client(address: string)

  /** The three parallel lists handed to the data handler. */
  datatype Batch = Batch(data: seq<Payload>, timestamps: seq<Timestamp>, delays: seq<int>)

  /** One call of the data handler: the batch it was given and how the call ended. */
  datatype Dump = Dump(batch: Batch, status: WriteStatus)

  // ---------------------------------------------------------------------------------------
  // Inter-arrival delay

  /** (now - last).microseconds: Python normalises a timedelta so that its microseconds
      component lies in [0, 10^6); the whole seconds and days of the gap are dropped. */
  function DelayMicros(now: Timestamp, last: Timestamp): (d: int)
    ensures 0 <= d < MicrosPerSecond
    ensures (now - last - d) % MicrosPerSecond == 0
    ensures 0 <= now - last < MicrosPerSecond ==> d == now - last
  {
    (now - last) % MicrosPerSecond
  }

  // ---------------------------------------------------------------------------------------
  // Device selection

  /** int(response.strip()); None stands for the ValueError that int() raises. */
  function ParseResponse(response: string): Option<int>
  {
    ParseInt(Strip(response))
  }

  /** Any str.strip() whitespace around an integer's text, the separators \x1c to \x1f
      included, leaves the response reading as that integer. */
  lemma ResponsePadded(n: int, before: string, after: string)
    requires forall i :: 0 <= i < |before| ==> IsSpace(before[i])
    requires forall i :: 0 <= i < |after| ==> IsSpace(after[i])
    ensures ParseResponse(before + IntText(n) + after)
            == if DigitCount(n) <= MaxStrDigits then Some(n) else None
  {
    TrimPadded(StrWhitespace, n, before, after);
    ParseIntText(n);
  }

  /** int(response.strip()) of every response, in order. */
  function ParseResponses(responses: seq<string>): (parsed: seq<Option<int>>)
    ensures |parsed| == |responses|
    ensures forall j :: 0 <= j < |responses| ==> parsed[j] == ParseResponse(responses[j])
  {
    if |responses| == 0 then [] else [ParseResponse(responses[0])] + ParseResponses(responses[1..])
  }

  /** A response that is an integer but no index of the device list: the loop prompts again. */
  predicate OutOfRange(count: nat, parsed: Option<int>)
  {
    parsed.Some? && !(0 <= parsed.value < count)
  }

  /** How the selection loop ends after reading some of the operator's responses. */
  datatype Selection =
    | Selected(index: nat, used: nat) // response number `used` is the valid index `index`
    | NotAnInteger(used: nat)         // response number `used` is no integer: `response > -1` raises TypeError
    | AwaitingInput                   // every response was an out-of-range integer; still prompting

  /** The selection loop over the parsed responses from position `from` on. */
  function ChooseFrom(count: nat, parsed: seq<Option<int>>, from: nat): (r: Selection)
    requires from <= |parsed|
    ensures r.Selected? ==>
              && from < r.used <= |parsed| && r.index < count
              && parsed[r.used - 1] == Some(r.index as int)
              && forall j :: from <= j < r.used - 1 ==> OutOfRange(count, parsed[j])
    ensures r.NotAnInteger? ==>
              && from < r.used <= |parsed|
              && parsed[r.used - 1].None?
              && forall j :: from <= j < r.used - 1 ==> OutOfRange(count, parsed[j])
    ensures r.AwaitingInput? ==> forall j :: from <= j < |parsed| ==> OutOfRange(count, parsed[j])
    decreases |parsed| - from
  {
    if from == |parsed| then AwaitingInput
    else match parsed[from]
      case None => NotAnInteger(from + 1)
      case Some(i) =>
        if -1 < i < count then Selected(i, from + 1) else ChooseFrom(count, parsed, from + 1)
  }

  /** The outcome of select_device's prompt loop over a list of `count` devices. */
  function Choose(count: nat, responses: seq<string>): Selection
  {
    ChooseFrom(count, ParseResponses(responses), 0)
  }

  /** The `while True` loop of select_device (app.py:133-143) over a list of `count` devices:
      it reads the responses in order until one is a valid index or no integer at all. */
  method PromptLoop(count: nat, responses: seq<string>) returns (r: Selection)
    ensures r == Choose(count, responses)
  {
    ghost var parsed := ParseResponses(responses);
    r := AwaitingInput;
    var i := 0;
    while i < |responses|
      invariant 0 <= i <= |responses|
      invariant ChooseFrom(count, parsed, i) == Choose(count, responses)
    {
      var response := ParseResponse(responses[i]);
      assert parsed[i] == response;
      ChooseFromStep(count, parsed, i);
      if response.None? {
        r := NotAnInteger(i + 1);
        break;
      }
      if -1 < response.value < count {
        r := Selected(response.value, i + 1);
        break;
      }
      i := i + 1;
    }
  }

  /** One response of the selection loop: it ends the loop or passes on to the next one. */
  lemma ChooseFromStep(count: nat, parsed: seq<Option<int>>, i: nat)
    requires i < |parsed|
    ensures ChooseFrom(count, parsed, i)
            == if parsed[i].None? then NotAnInteger(i + 1)
               else if -1 < parsed[i].value < count then Selected(parsed[i].value, i + 1)
               else ChooseFrom(count, parsed, i + 1)
  {
  }

  /** Three devices: "abc" ends the loop with the TypeError, while "-1" and "5" prompt again
      and " 2 " then selects the last device. */
  lemma SelectionExamples()
    ensures Choose(3, ["abc"]) == NotAnInteger(1)
    ensures Choose(3, ["-1", "5", " 2 "]) == Selected(2, 3)
    ensures Choose(3, ["3"]) == AwaitingInput
    ensures Choose(0, ["0", "x"]) == NotAnInteger(2)
  {
    NumericResponses();
    TextResponses();
    var p := ParseResponses(["-1", "5", " 2 "]);
    assert p[0] == Some(-1) && p[1] == Some(5) && p[2] == Some(2);
    assert ChooseFrom(3, p, 1) == Selected(2, 3);
    var q := ParseResponses(["0", "x"]);
    assert q[0] == Some(0) && q[1] == None;
    assert ChooseFrom(0, q, 1) == NotAnInteger(2);
  }

  lemma NumericResponses()
    ensures ParseResponse("-1") == Some(-1)
    ensures ParseResponse("5") == Some(5)
    ensures ParseResponse(" 2 ") == Some(2)
    ensures ParseResponse("3") == Some(3)
    ensures ParseResponse("0") == Some(0)
  {
    assert Strip("-1") == "-1";
    assert ParseLiteral("-1") == Some(-1);
    assert Strip("5") == "5";
    assert Strip(" 2 ") == "2";
    assert Strip("3") == "3";
    assert Strip("0") == "0";
  }

  lemma TextResponses()
    ensures ParseResponse("abc") == None
    ensures ParseResponse("x") == None
  {
    assert Strip("abc") == "abc";
    assert Strip("x") == "x";
  }

  // ---------------------------------------------------------------------------------------
  // Counting flushes

  /** The batch length after one notification whose flush, if any, returns normally. */
  function NextFill(fill: nat, dumpSize: int): nat
  {
    if fill + 1 >= dumpSize then 0 else fill + 1
  }

  /** The batch length after k notifications, starting from length `fill`. */
  function FillAfter(fill: nat, k: nat, dumpSize: int): nat
    decreases k
  {
    if k == 0 then fill else FillAfter(NextFill(fill, dumpSize), k - 1, dumpSize)
  }

  /** The number of batches handed to the handler during k notifications, from length `fill`. */
  function FlushesAfter(fill: nat, k: nat, dumpSize: int): nat
    decreases k
  {
    if k == 0 then 0
    else (if fill + 1 >= dumpSize then 1 else 0) + FlushesAfter(NextFill(fill, dumpSize), k - 1, dumpSize)
  }

  lemma {:induction false} FlushCount(fill: nat, k: nat, dumpSize: int)
    requires 1 <= dumpSize && fill < dumpSize
    ensures FillAfter(fill, k, dumpSize) == (fill + k) % dumpSize
    ensures FlushesAfter(fill, k, dumpSize) == (fill + k) / dumpSize
    decreases k
  {
    if k > 0 {
      FlushCount(NextFill(fill, dumpSize), k - 1, dumpSize);
      if fill + 1 == dumpSize {
        DivModShift(k - 1, dumpSize);
        assert fill + k == (k - 1) + dumpSize;
      } else {
        assert NextFill(fill, dumpSize) + (k - 1) == fill + k;
      }
    }
  }

  lemma DivModShift(m: nat, d: int)
    requires 1 <= d
    ensures (m + d) / d == m / d + 1 && (m + d) % d == m % d
  {
    DivModUnique(m + d, d, m / d + 1, m % d);
  }

  lemma DivModUnique(n: int, d: int, q: int, r: int)
    requires 1 <= d && 0 <= r < d && n == q * d + r
    ensures n / d == q && n % d == r
  {
    var q', r' := n / d, n % d;
    assert (q - q') * d == r' - r;
    if q > q' {
      MulAtLeast(q - q', d);
    } else if q < q' {
      MulAtLeast(q' - q, d);
    }
  }

  lemma {:induction false} MulAtLeast(x: int, d: int)
    requires 1 <= x && 1 <= d
    ensures x * d >= d
    decreases x
  {
    if x > 1 {
      MulAtLeast(x - 1, d);
      assert x * d == (x - 1) * d + d;
    }
  }

  /** From an empty buffer, k notifications hand exactly k div dumpSize batches to the handler
      and leave k mod dumpSize entries: fewer than dumpSize notifications flush nothing, and
      exactly dumpSize flush once and leave the buffer empty. */
  lemma FlushesFromEmpty(k: nat, dumpSize: int)
    requires 1 <= dumpSize
    ensures FlushesAfter(0, k, dumpSize) == k / dumpSize
    ensures FillAfter(0, k, dumpSize) == k % dumpSize < dumpSize
    ensures k < dumpSize ==> FlushesAfter(0, k, dumpSize) == 0 && FillAfter(0, k, dumpSize) == k
    ensures FlushesAfter(0, dumpSize, dumpSize) == 1 && FillAfter(0, dumpSize, dumpSize) == 0
  {
    FlushCount(0, k, dumpSize);
    FlushCount(0, dumpSize, dumpSize);
  }

  // ---------------------------------------------------------------------------------------
  // The Connection object

  /** The payloads of the batches the handler accepted (returned normally), in order. */
  ghost function Delivered(dumps: seq<Dump>): seq<Payload>
  {
    if |dumps| == 0 then []
    else
      var last := dumps[|dumps| - 1];
      Delivered(dumps[..|dumps| - 1]) + (if last.status == Written then last.batch.data else [])
  }

  /** What the transport does when connect() gets past its `connected` guard. */
  datatype ConnectOutcome =
    | ConnectRaised   // client.connect() or is_connected() raised
    | NotConnected    // is_connected() returned False
    | SubscribeRaised // connected, then start_notify raised
    | Subscribed      // connected and subscribed: connect() waits in its poll loop

  /** How a call of connect() went. */
  datatype ConnectResult = AlreadyConnected | Attempted(outcome: ConnectOutcome)

  /** Which branch one iteration of the manager loop took. */
  datatype ManagerStep = ConnectStep(result: ConnectResult) | SelectStep(selection: Selection)

  class Connection {
    const readCharacteristic: string
    const writeCharacteristic: string
    /** data_dump_handler; the application passes DataToFile.write_to_csv */
    const sink: DataToFile
    const dumpSize: int

    var lastPacketTime: Timestamp
    var connected: bool
    var connectedDevice: Option<Device>
    var client: Option<Client>

    var rxData: seq<Payload>
    var rxTimestamps: seq<Timestamp>
    var rxDelays: seq<int>

    /** every payload ever received, in arrival order */
    ghost var received: seq<Payload>
    /** every call of the data handler, in order */
    ghost var dumps: seq<Dump>

    ghost predicate Valid()
      reads this
    {
      BufferValid() && LinkValid()
    }

    /** The three lists have equal length, every delay is a microseconds component, the last
        timestamp is lastPacketTime, and the accepted batches followed by the current lists are
        every payload received, in arrival order. */
    ghost predicate BufferValid()
      reads this`rxData, this`rxTimestamps, this`rxDelays, this`lastPacketTime, this`received, this`dumps
    {
      && |rxTimestamps| == |rxData| && |rxDelays| == |rxData|
      && (forall i :: 0 <= i < |rxDelays| ==> 0 <= rxDelays[i] < MicrosPerSecond)
      && (|rxTimestamps| > 0 ==> rxTimestamps[|rxTimestamps| - 1] == lastPacketTime)
      && Delivered(dumps) + rxData == received
      && (forall i :: 0 <= i < |dumps| ==> |dumps[i].batch.data| >= dumpSize && dumps[i].status != LengthMismatch)
    }

    /** client and connected_device are set together, for the same device, and a connection
        needs a client. */
    ghost predicate LinkValid()
      reads this`client, this`connectedDevice, this`connected
    {
      && (client.Some? <==> connectedDevice.Some?)
      && (client.Some? ==> client.value.address == connectedDevice.value.address)
      && (connected ==> client.Some?)
    }

    /** Connection(loop, read_characteristic, write_characteristic, data_dump_handler,
        data_dump_size), created at time `now`. */
    constructor (readCharacteristic: string, writeCharacteristic: string, sink: DataToFile,
                 dumpSize: int, now: Timestamp)
      ensures Valid()
      ensures this.readCharacteristic == readCharacteristic && this.writeCharacteristic == writeCharacteristic
      ensures this.sink == sink && this.dumpSize == dumpSize
      ensures lastPacketTime == now && !connected && connectedDevice == None && client == None
      ensures rxData == [] && rxTimestamps == [] && rxDelays == []
      ensures received == [] && dumps == []
    {
      this.readCharacteristic := readCharacteristic;
      this.writeCharacteristic := writeCharacteristic;
      this.sink := sink;
      this.dumpSize := dumpSize;
      lastPacketTime := now;
      connected := false;
      connectedDevice := None;
      client := None;
      rxData, rxTimestamps, rxDelays := [], [], [];
      received, dumps := [], [];
    }

    /** on_disconnect: clears `connected` and nothing else; the client and the selected device
        stay, so the next manager step reconnects to the same device. */
    method OnDisconnect()
      requires Valid()
      modifies this`connected
      ensures Valid() && !connected
    {
      connected := false;
    }

    /** connect(): nothing happens when already connected. Otherwise the transport's outcome
        decides; every exception is printed and swallowed. A call without a client fails on the
        missing attribute, which is swallowed the same way. */
    method Connect(outcome: ConnectOutcome) returns (r: ConnectResult)
      requires Valid()
      modifies this`connected
      ensures Valid()
      ensures r == AlreadyConnected <==> old(connected)
      ensures r.Attempted? ==> r.outcome == if client.Some? then outcome else ConnectRaised
      ensures connected <==> old(connected) || (r.Attempted? && r.outcome in {SubscribeRaised, Subscribed})
    {
      if connected {
        return AlreadyConnected;
      }
      if client.None? {
        return Attempted(ConnectRaised);
      }
      match outcome {
        case ConnectRaised =>
        case NotConnected =>
          connected := false;
        case SubscribeRaised =>
          connected := true;
        case Subscribed =>
          connected := true;
      }
      r := Attempted(outcome);
    }

    /** select_device over the discovered `devices`, reading the operator's `responses` in
        order. A valid index selects that device and creates its client; an out-of-range
        integer prompts again; text that is no integer ends the call with the TypeError. */
    method SelectDevice(devices: seq<Device>, responses: seq<string>) returns (r: Selection)
      requires Valid()
      modifies this`connectedDevice, this`client
      ensures Valid()
      ensures r == Choose(|devices|, responses)
      ensures r.Selected? ==> r.index < |devices| && connectedDevice == Some(devices[r.index])
                              && client == Some(Client(devices[r.index].address))
      ensures !r.Selected? ==> connectedDevice == old(connectedDevice) && client == old(client)
    {
      r := PromptLoop(|devices|, responses);
      if r.Selected? {
        SetDevice(devices[r.index]);
      }
    }

    /** The selected device becomes connected_device, with a BleakClient for its address. */
    method SetDevice(device: Device)
      requires Valid()
      modifies this`connectedDevice, this`client
      ensures Valid()
      ensures connectedDevice == Some(device) && client == Some(Client(device.address))
    {
      connectedDevice := Some(device);
      client := Some(Client(device.address));
    }

    /** One iteration of manager(): with a client, connect(); without one, select_device().
        The five-second sleep after a selection is not modelled. */
    method Manage(outcome: ConnectOutcome, devices: seq<Device>, responses: seq<string>)
      returns (step: ManagerStep)
      requires Valid()
      modifies this`connected, this`connectedDevice, this`client
      ensures Valid()
      ensures old(client).Some? ==>
                && step.ConnectStep?
                && (step.result == AlreadyConnected <==> old(connected))
                && (step.result.Attempted? ==> step.result.outcome == outcome)
                && client == old(client) && connectedDevice == old(connectedDevice)
      ensures old(client).None? ==>
                && step.SelectStep? && step.selection == Choose(|devices|, responses)
                && connected == old(connected)
                && (step.selection.Selected? ==>
                      && step.selection.index < |devices|
                      && connectedDevice == Some(devices[step.selection.index])
                      && client == Some(Client(devices[step.selection.index].address)))
                && (!step.selection.Selected? ==> client == old(client) && connectedDevice == old(connectedDevice))
      ensures step.ConnectStep? ==>
                (connected <==> old(connected) || (step.result.Attempted? && step.result.outcome in {SubscribeRaised, Subscribed}))
    {
      if client.Some? {
        var r := Connect(outcome);
        step := ConnectStep(r);
      } else {
        var s := SelectDevice(devices, responses);
        step := SelectStep(s);
      }
    }

    /** record_time_info(): stamps the notification with `now` and records the delay since
        the previous one. */
    method RecordTimeInfo(now: Timestamp)
      modifies this`rxTimestamps, this`rxDelays, this`lastPacketTime
      ensures rxTimestamps == old(rxTimestamps) + [now]
      ensures rxDelays == old(rxDelays) + [DelayMicros(now, old(lastPacketTime))]
      ensures lastPacketTime == now
    {
      rxTimestamps := rxTimestamps + [now];
      rxDelays := rxDelays + [DelayMicros(now, lastPacketTime)];
      lastPacketTime := now;
    }

    /** clear_lists() */
    method ClearLists()
      modifies this`rxData, this`rxTimestamps, this`rxDelays
      ensures rxData == [] && rxTimestamps == [] && rxDelays == []
    {
      rxData, rxTimestamps, rxDelays := [], [], [];
    }

    /** notification_handler(sender, data) for a notification arriving at `now`: append the
        payload, record its time and delay, and hand the batch over once it holds dumpSize
        entries. `handled` is None when the data handler was not called, and otherwise how its
        call ended. */
    method NotificationHandler(payload: Payload, now: Timestamp) returns (handled: Option<WriteStatus>)
      requires Valid()
      modifies this`rxData, this`rxTimestamps, this`rxDelays, this`lastPacketTime, this`received, this`dumps, sink
      ensures Valid()
      ensures lastPacketTime == now && received == old(received) + [payload]
      ensures var batch := Batch(old(rxData) + [payload], old(rxTimestamps) + [now],
                                 old(rxDelays) + [DelayMicros(now, old(lastPacketTime))]);
              if |batch.data| < dumpSize then
                && handled.None?
                && rxData == batch.data && rxTimestamps == batch.timestamps && rxDelays == batch.delays
                && dumps == old(dumps) && sink.contents == old(sink.contents)
              else
                var res := CsvAppend(old(sink.contents), batch.data, batch.timestamps, batch.delays, sink.timeText);
                && handled == Some(res.status) && res.status != LengthMismatch
                && sink.contents == res.contents
                && dumps == old(dumps) + [Dump(batch, res.status)]
                && if res.status == Written then rxData == [] && rxTimestamps == [] && rxDelays == []
                   else rxData == batch.data && rxTimestamps == batch.timestamps && rxDelays == batch.delays
      ensures handled.Some? <==> |old(rxData)| + 1 >= dumpSize
      ensures handled.None? || handled == Some(Written) ==> |rxData| == NextFill(|old(rxData)|, dumpSize)
      ensures (1 <= dumpSize && |old(rxData)| < dumpSize && (handled.None? || handled == Some(Written)))
                ==> |rxData| < dumpSize
    {
      rxData := rxData + [payload];
      received := received + [payload];
      RecordTimeInfo(now);
      if |rxData| >= dumpSize {
        var status := HandOver();
        handled := Some(status);
      } else {
        handled := None;
      }
    }

    /** data_dump_handler(rx_data, rx_timestamps, rx_delays), then clear_lists() if the handler
        returns normally. When it raises, the exception leaves notification_handler before
        clear_lists and the entries stay. */
    method HandOver() returns (status: WriteStatus)
      requires Valid() && |rxData| >= dumpSize
      modifies this`rxData, this`rxTimestamps, this`rxDelays, this`dumps, sink
      ensures Valid()
      ensures var batch := Batch(old(rxData), old(rxTimestamps), old(rxDelays));
              var res := CsvAppend(old(sink.contents), batch.data, batch.timestamps, batch.delays, sink.timeText);
              && status == res.status && status != LengthMismatch
              && sink.contents == res.contents
              && dumps == old(dumps) + [Dump(batch, status)]
              && if status == Written then rxData == [] && rxTimestamps == [] && rxDelays == []
                 else rxData == batch.data && rxTimestamps == batch.timestamps && rxDelays == batch.delays
    {
      var batch := Batch(rxData, rxTimestamps, rxDelays);
      status := sink.WriteToCsv(rxData, rxTimestamps, rxDelays);
      DeliveredSnoc(dumps, Dump(batch, status));
      dumps := dumps + [Dump(batch, status)];
      if status == Written {
        ClearLists();
      }
    }
  }

  lemma DeliveredSnoc(dumps: seq<Dump>, d: Dump)
    ensures Delivered(dumps + [d]) == Delivered(dumps) + (if d.status == Written then d.batch.data else [])
  {
    assert (dumps + [d])[..|dumps|] == dumps;
  }

  /** After a disconnect, the next manager step calls connect() again on the same client and
      does not select a device anew. */
  method ReconnectAfterDisconnect(c: Connection, outcome: ConnectOutcome, devices: seq<Device>,
                                  responses: seq<string>) returns (step: ManagerStep)
    requires c.Valid() && c.client.Some?
    modifies c`connected, c`connectedDevice, c`client
    ensures c.Valid()
    ensures step == ConnectStep(Attempted(outcome))
    ensures c.connected <==> outcome in {SubscribeRaised, Subscribed}
    ensures c.client == old(c.client) && c.connectedDevice == old(c.connectedDevice)
  {
    c.OnDisconnect();
    step := c.Manage(outcome, devices, responses);
  }

  /** The application's wiring (app.py:201-204): a DataToFile for the output file, whose
      write_to_csv is the data handler of a Connection on the two characteristics with the
      default dump size. */
  method StartApplication(path: string, timeText: Timestamp -> string, existing: string,
                          now: Timestamp) returns (sink: DataToFile, c: Connection)
    ensures fresh(sink) && fresh(c) && c.Valid()
    ensures sink.path == path && sink.timeText == timeText && sink.contents == existing
    ensures c.sink == sink && c.dumpSize == DefaultDumpSize
    ensures c.readCharacteristic == ReadCharacteristic && c.writeCharacteristic == WriteCharacteristic
    ensures !c.connected && c.client.None? && c.connectedDevice.None?
    ensures c.rxData == [] && c.dumps == [] && c.lastPacketTime == now
  {
    sink := new DataToFile(path, timeText, existing);
    c := new Connection(ReadCharacteristic, WriteCharacteristic, sink, DefaultDumpSize, now);
  }

  /** One notification whose payload is one byte, into a buffer of one-byte payloads that is not
      yet full: the flush, if it happens, returns normally and empties the buffer. */
  method NotifyDecodable(c: Connection, payload: Payload, now: Timestamp)
    requires c.Valid() && |c.rxData| < c.dumpSize && |payload| == 1
    requires forall j :: 0 <= j < |c.rxData| ==> |c.rxData[j]| == 1
    modifies c`rxData, c`rxTimestamps, c`rxDelays, c`lastPacketTime, c`received, c`dumps, c.sink
    ensures c.Valid()
    ensures c.lastPacketTime == now && c.received == old(c.received) + [payload]
    ensures |old(c.rxData)| + 1 == c.dumpSize ==>
              && c.rxData == []
              && |c.dumps| == |old(c.dumps)| + 1 && c.dumps[..|old(c.dumps)|] == old(c.dumps)
              && c.dumps[|old(c.dumps)|].status == Written
              && c.dumps[|old(c.dumps)|].batch.data == old(c.rxData) + [payload]
              && |c.dumps[|old(c.dumps)|].batch.data| == c.dumpSize
    ensures |old(c.rxData)| + 1 < c.dumpSize ==>
              c.rxData == old(c.rxData) + [payload] && c.dumps == old(c.dumps)
  {
    ghost var before := c.rxData;
    ghost var d0 := c.dumps;
    assert Decodable(before + [payload]);
    var handled := c.NotificationHandler(payload, now);
    if |before| + 1 == c.dumpSize {
      assert c.dumps == d0 + [c.dumps[|d0|]];
      assert (d0 + [c.dumps[|d0|]])[..|d0|] == d0;
    }
  }

  /** k notifications, the i-th carrying payloads[i] at times[i], delivered to a connection whose
      buffer is empty. When every payload is one byte, every flush returns normally, so exactly
      k div dumpSize batches are handed over and k mod dumpSize entries stay in the buffer. */
  method NotifyAll(c: Connection, payloads: seq<Payload>, times: seq<Timestamp>)
    requires c.Valid() && c.rxData == [] && 1 <= c.dumpSize
    requires |times| == |payloads|
    requires forall j :: 0 <= j < |payloads| ==> |payloads[j]| == 1
    modifies c`rxData, c`rxTimestamps, c`rxDelays, c`lastPacketTime, c`received, c`dumps, c.sink
    ensures c.Valid()
    ensures |c.dumps| == |old(c.dumps)| + |payloads| / c.dumpSize
    ensures |c.rxData| == |payloads| % c.dumpSize
    ensures |c.dumps| - |old(c.dumps)| == FlushesAfter(0, |payloads|, c.dumpSize)
    ensures |c.rxData| == FillAfter(0, |payloads|, c.dumpSize)
    ensures c.dumps[..|old(c.dumps)|] == old(c.dumps)
    ensures forall j :: |old(c.dumps)| <= j < |c.dumps| ==>
              c.dumps[j].status == Written && |c.dumps[j].batch.data| == c.dumpSize
    ensures |c.rxData| <= |payloads| && c.rxData == payloads[|payloads| - |c.rxData|..]
    ensures |payloads| > 0 ==> c.lastPacketTime == times[|times| - 1]
    ensures c.received == old(c.received) + payloads
  {
    NotifyEach(c, payloads, times);
    DivModUnique(|payloads|, c.dumpSize, |c.dumps| - |old(c.dumps)|, |c.rxData|);
    FlushesFromEmpty(|payloads|, c.dumpSize);
  }

  /** The loop behind NotifyAll: every notification either fills the buffer, which hands over
      one more full batch, or adds to it. */
  method NotifyEach(c: Connection, payloads: seq<Payload>, times: seq<Timestamp>)
    requires c.Valid() && c.rxData == [] && 1 <= c.dumpSize
    requires |times| == |payloads|
    requires forall j :: 0 <= j < |payloads| ==> |payloads[j]| == 1
    modifies c`rxData, c`rxTimestamps, c`rxDelays, c`lastPacketTime, c`received, c`dumps, c.sink
    ensures c.Valid()
    ensures |c.dumps| >= |old(c.dumps)|
    ensures FullBatchesAppended(old(c.dumps), c.dumps, |c.dumps| - |old(c.dumps)|, c.dumpSize)
    ensures |payloads| == (|c.dumps| - |old(c.dumps)|) * c.dumpSize + |c.rxData| && |c.rxData| < c.dumpSize
    ensures |c.rxData| <= |payloads| && c.rxData == payloads[|payloads| - |c.rxData|..]
    ensures |payloads| > 0 ==> c.lastPacketTime == times[|times| - 1]
    ensures c.received == old(c.received) + payloads
  {
    ghost var d0, r0 := c.dumps, c.received;
    ghost var start, flushes := 0, 0;
    var i := 0;
    while i < |payloads|
      invariant i <= |payloads| && NotifiedUpTo(c, payloads, times, i, d0, r0, start, flushes)
    {
      start, flushes := NotifyNext(c, payloads, times, i, d0, r0, start, flushes);
      i := i + 1;
    }
    assert payloads[..i] == payloads;
  }

  /** The state of NotifyEach after the first i payloads: the batch in the buffer began at
      `start`, and `flushes` full batches were handed over since the dump log was `d0` and the
      received log was `r0`. */
  ghost predicate NotifiedUpTo(c: Connection, payloads: seq<Payload>, times: seq<Timestamp>, i: nat,
                               d0: seq<Dump>, r0: seq<Payload>, start: nat, flushes: nat)
    reads c
  {
    && |times| == |payloads| && i <= |payloads|
    && (forall j :: 0 <= j < |payloads| ==> |payloads[j]| == 1)
    && start <= i && i - start < c.dumpSize
    && start == flushes * c.dumpSize
    && c.Valid()
    && FullBatchesAppended(d0, c.dumps, flushes, c.dumpSize)
    && c.rxData == payloads[start..i]
    && (i > 0 ==> c.lastPacketTime == times[i - 1])
    && c.received == r0 + payloads[..i]
  }

  /** One notification of NotifyEach's loop. */
  method NotifyNext(c: Connection, payloads: seq<Payload>, times: seq<Timestamp>, i: nat,
                    ghost d0: seq<Dump>, ghost r0: seq<Payload>, ghost start: nat, ghost flushes: nat)
    returns (ghost start': nat, ghost flushes': nat)
    requires i < |payloads| && NotifiedUpTo(c, payloads, times, i, d0, r0, start, flushes)
    modifies c`rxData, c`rxTimestamps, c`rxDelays, c`lastPacketTime, c`received, c`dumps, c.sink
    ensures NotifiedUpTo(c, payloads, times, i + 1, d0, r0, start', flushes')
  {
    ghost var rx, ds, rc := c.rxData, c.dumps, c.received;
    OneBytePayloads(payloads, start, i);
    NotifyDecodable(c, payloads[i], times[i]);
    WindowStep(payloads, start, i, c.dumpSize, rx, c.rxData);
    DumpsStep(d0, ds, c.dumps, flushes, c.dumpSize, |rx|);
    ReceivedStep(r0, payloads, i, rc, c.received);
    if |rx| + 1 == c.dumpSize {
      MulStep(flushes, c.dumpSize);
      start', flushes' := i + 1, flushes + 1;
    } else {
      start', flushes' := start, flushes;
    }
  }

  /** `dumps` is `d0` followed by `n` batches of exactly `dumpSize` payloads, each written normally. */
  ghost predicate FullBatchesAppended(d0: seq<Dump>, dumps: seq<Dump>, n: nat, dumpSize: int)
  {
    && |dumps| == |d0| + n && dumps[..|d0|] == d0
    && forall j :: |d0| <= j < |dumps| ==> dumps[j].status == Written && |dumps[j].batch.data| == dumpSize
  }

  lemma OneBytePayloads(payloads: seq<Payload>, lo: int, hi: int)
    requires 0 <= lo <= hi <= |payloads|
    requires forall j :: 0 <= j < |payloads| ==> |payloads[j]| == 1
    ensures forall j :: 0 <= j < hi - lo ==> |payloads[lo..hi][j]| == 1
  {
  }

  /** The received log after notification i holds the first i + 1 payloads. */
  lemma ReceivedStep(r0: seq<Payload>, payloads: seq<Payload>, i: nat, r: seq<Payload>, r': seq<Payload>)
    requires i < |payloads| && r == r0 + payloads[..i] && r' == r + [payloads[i]]
    ensures r' == r0 + payloads[..i + 1]
  {
    assert payloads[..i + 1] == payloads[..i] + [payloads[i]];
  }

  /** The buffer after the notification of payload i, for a batch begun at `start`: empty
      when it filled, else the batch with payload i added. */
  lemma WindowStep(payloads: seq<Payload>, start: nat, i: nat, d: int, rx: seq<Payload>, rx': seq<Payload>)
    requires start <= i < |payloads| && rx == payloads[start..i]
    requires |rx| + 1 == d ==> rx' == []
    requires |rx| + 1 < d ==> rx' == rx + [payloads[i]]
    ensures |rx| + 1 == d ==> rx' == payloads[i + 1..i + 1]
    ensures |rx| + 1 < d ==> rx' == payloads[start..i + 1]
  {
    assert payloads[start..i + 1] == payloads[start..i] + [payloads[i]];
  }

  /** The dump log after one notification: one more full batch exactly when the buffer fills. */
  lemma DumpsStep(d0: seq<Dump>, ds: seq<Dump>, ds': seq<Dump>, n: nat, d: int, fill: nat)
    requires FullBatchesAppended(d0, ds, n, d)
    requires fill + 1 == d ==>
               && |ds'| == |ds| + 1 && ds'[..|ds|] == ds
               && ds'[|ds|].status == Written && |ds'[|ds|].batch.data| == fill + 1
    requires fill + 1 != d ==> ds' == ds
    ensures FullBatchesAppended(d0, ds', if fill + 1 == d then n + 1 else n, d)
  {
    if fill + 1 == d {
      assert ds'[..|d0|] == ds[..|d0|];
      forall j | |d0| <= j < |ds'|
        ensures ds'[j].status == Written && |ds'[j].batch.data| == d
      {
        if j < |ds| {
          assert ds'[j] == ds'[..|ds|][j];
        }
      }
    }
  }

  lemma MulStep(q: nat, d: int)
    ensures (q + 1) * d == q * d + d
  {
  }
}
