/** The sample sink of the acquisition script: DataToFile.write_to_csv, which appends a batch
    of notifications to a CSV file. The file is modelled by its contents; str(datetime) is a
    formatting function the sink is given. */
module CsvSink {
  import opened Text

  /** The raw bytes of one notification. */
  type Payload = seq<byte>

  /** Arrival time of a notification, in microseconds. */
  type Timestamp = int

  const ColumnNames: seq<string> := ["time", "delay", "data_value"]

  /** ",".join(names) */
  function JoinComma(names: seq<string>): string
  {
    if |names| == 0 then "" else if |names| == 1 then names[0] else names[0] + "," + JoinComma(names[1..])
  }

  /** The header line, written once, into an empty file. */
  function Header(): (h: string)
    ensures h == "time,delay,data_value,\n"
  {
    JoinComma(ColumnNames) + ",\n"
  }

  /** struct.unpack('?', p)[0]: the payload must be exactly one byte, and it is True when that
      byte is non-zero; any other length is the struct.error the unpacking raises (None). */
  function DecodeBool(p: Payload): (r: Option<bool>)
    ensures r.Some? <==> |p| == 1
    ensures r.Some? ==> (r.value <==> p[0] != 0)
  {
    if |p| == 1 then Some(p[0] != 0) else None
  }

  /** str(b) for a bool. */
  function BoolText(b: bool): string
  {
    if b then "True" else "False"
  }

  /** One data row: the time, the delay and the decoded value, each followed by ", ", then a
      line break and an empty line. */
  function FormatRow(time: string, delay: int, value: bool): string
  {
    time + ", " + IntText(delay) + ", " + BoolText(value) + ", \n" + "\n"
  }

  /** How a call of write_to_csv ends: normally, or with the exception it raises. */
  datatype WriteStatus =
    | Written
    | LengthMismatch          // "Not all data lists are the same length."
    | DecodeError(index: nat) // struct.error for the payload at this index

  predicate SameLengths(data: seq<Payload>, times: seq<Timestamp>, delays: seq<int>)
  {
    |times| == |data| && |delays| == |data|
  }

  predicate Decodable(data: seq<Payload>)
  {
    forall j :: 0 <= j < |data| ==> |data[j]| == 1
  }

  /** The index of the first payload that is not exactly one byte, or |data| if there is none. */
  function FirstUndecodable(data: seq<Payload>): (k: nat)
    ensures k <= |data|
    ensures forall j :: 0 <= j < k ==> |data[j]| == 1
    ensures k < |data| ==> |data[k]| != 1
  {
    if |data| == 0 || |data[0]| != 1 then 0 else 1 + FirstUndecodable(data[1..])
  }

  /** The rows written for a batch whose payloads all decode, in index order. */
  function RowsText(data: seq<Payload>, times: seq<Timestamp>, delays: seq<int>,
                    timeText: Timestamp -> string): string
    requires SameLengths(data, times, delays) && Decodable(data)
    decreases |data|
  {
    if |data| == 0 then ""
    else FormatRow(timeText(times[0]), delays[0], data[0][0] != 0)
         + RowsText(data[1..], times[1..], delays[1..], timeText)
  }

  /** The file contents after write_to_csv, and how the call ends. */
  datatype CsvResult = CsvResult(contents: string, status: WriteStatus)

  /** write_to_csv on a file holding `contents`. The length check comes before the file is
      opened; an empty file receives the header and none of the batch's rows; otherwise the rows
      are appended one by one until the first payload that does not decode. */
  function CsvAppend(contents: string, data: seq<Payload>, times: seq<Timestamp>, delays: seq<int>,
                     timeText: Timestamp -> string): (r: CsvResult)
    ensures r.status == LengthMismatch <==> !SameLengths(data, times, delays)
    ensures r.status == LengthMismatch ==> r.contents == contents
    ensures SameLengths(data, times, delays) && contents == "" ==> r == CsvResult(Header(), Written)
    ensures contents != "" ==> contents <= r.contents
    ensures r.status.DecodeError? ==>
              contents != "" && r.status.index < |data| && |data[r.status.index]| != 1
    ensures SameLengths(data, times, delays) && contents != "" && Decodable(data) ==> r.status == Written
    ensures SameLengths(data, times, delays) && contents != "" ==>
              r.status == if FirstUndecodable(data) == |data| then Written else DecodeError(FirstUndecodable(data))
  {
    if !SameLengths(data, times, delays) then CsvResult(contents, LengthMismatch)
    else if contents == "" then CsvResult(Header(), Written)
    else
      var k := FirstUndecodable(data);
      CsvResult(contents + RowsText(data[..k], times[..k], delays[..k], timeText),
                if k == |data| then Written else DecodeError(k))
  }

  // A reader for the rows, the partner of FormatRow and RowsText.

  /** The formatted times contain no comma, as str(datetime) never does. */
  ghost predicate CommaFreeTimes(timeText: Timestamp -> string)
  {
    forall t :: NoComma(timeText(t))
  }

  /** One time text is comma-free. Stated on its own because the quantifier of CommaFreeTimes
      over a function value does not fire inside the induction of RowsReadBack. */
  lemma CommaFreeAt(timeText: Timestamp -> string, t: Timestamp)
    requires CommaFreeTimes(timeText)
    ensures NoComma(timeText(t))
  {
  }

  /** One data row as a reader recovers it from the file. */
  datatype Row = Row(time: string, delay: int, value: bool)

  /** The rows a decodable batch should produce, index by index. */
  function Decoded(data: seq<Payload>, times: seq<Timestamp>, delays: seq<int>,
                   timeText: Timestamp -> string): (rows: seq<Row>)
    requires SameLengths(data, times, delays) && Decodable(data)
  {
    seq(|data|, i requires 0 <= i < |data| => Row(timeText(times[i]), delays[i], data[i][0] != 0))
  }

  /** Splits s at its first comma. */
  function SplitAtComma(s: string): (r: Option<(string, string)>)
    ensures r.Some? ==> s == r.value.0 + "," + r.value.1 && NoComma(r.value.0)
  {
    if s == [] then None
    else if s[0] == ',' then Some(([], s[1..]))
    else match SplitAtComma(s[1..])
      case None => None
      case Some((a, b)) => Some(([s[0]] + a, b))
  }

  function ParseBool(s: string): Option<bool>
  {
    if s == "True" then Some(true) else if s == "False" then Some(false) else None
  }

  /** Reads one row from the front of s and returns it with the text after it. */
  function ReadRow(s: string): (r: Option<(Row, string)>)
    ensures r.Some? ==> |r.value.1| < |s|
  {
    match SplitAtComma(s)
    case None => None
    case Some((time, s1)) =>
      match SplitAtComma(s1)
      case None => None
      case Some((delayField, s2)) =>
        match SplitAtComma(s2)
        case None => None
        case Some((valueField, s3)) =>
          if |delayField| >= 1 && delayField[0] == ' ' && |valueField| >= 1 && valueField[0] == ' '
             && |s3| >= 3 && s3[..3] == " \n\n"
          then
            match (ParseDecimal(delayField[1..]), ParseBool(valueField[1..]))
            case (Some(d), Some(v)) => Some((Row(time, d, v), s3[3..]))
            case _ => None
          else None
  }

  /** Reads a whole run of rows. */
  function ReadRows(s: string): Option<seq<Row>>
    decreases |s|
  {
    if s == [] then Some([])
    else match ReadRow(s)
      case None => None
      case Some((row, rest)) =>
        match ReadRows(rest)
        case None => None
        case Some(rows) => Some([row] + rows)
  }

  lemma {:induction false} SplitAtCommaOf(a: string, b: string)
    requires NoComma(a)
    ensures SplitAtComma(a + "," + b) == Some((a, b))
  {
    if a != [] {
      assert (a + "," + b)[1..] == a[1..] + "," + b;
      SplitAtCommaOf(a[1..], b);
      assert [a[0]] + a[1..] == a;
    }
  }

  /** A formatted row reads back as the time text, the delay and the value it was given. */
  lemma ReadFormattedRow(time: string, delay: int, value: bool, rest: string)
    requires NoComma(time)
    ensures ReadRow(FormatRow(time, delay, value) + rest) == Some((Row(time, delay, value), rest))
  {
    var d := IntText(delay);
    var v := BoolText(value);
    var s3 := " \n\n" + rest;
    var s2 := " " + v + "," + s3;
    var s1 := " " + d + "," + s2;
    assert FormatRow(time, delay, value) + rest == time + "," + s1;
    assert NoComma(" " + d);
    assert NoComma(" " + v) by { assert v == "True" || v == "False"; }
    SplitAtCommaOf(time, s1);
    SplitAtCommaOf(" " + d, s2);
    SplitAtCommaOf(" " + v, s3);
    assert (" " + d)[1..] == d;
    assert (" " + v)[1..] == v;
    ParseDecimalText(delay);
    assert ParseBool(v) == Some(value);
    assert s3[..3] == " \n\n" && s3[3..] == rest;
  }

  /** The rows that write_to_csv appends read back, one per index, in index order, provided the
      formatted times contain no comma (str(datetime) never does). */
  lemma {:induction false} RowsReadBack(data: seq<Payload>, times: seq<Timestamp>, delays: seq<int>,
                                        timeText: Timestamp -> string)
    requires SameLengths(data, times, delays) && Decodable(data)
    requires CommaFreeTimes(timeText)
    ensures ReadRows(RowsText(data, times, delays, timeText)) == Some(Decoded(data, times, delays, timeText))
    decreases |data|
  {
    if |data| > 0 {
      CommaFreeAt(timeText, times[0]);
      var row := Row(timeText(times[0]), delays[0], data[0][0] != 0);
      var tail := RowsText(data[1..], times[1..], delays[1..], timeText);
      assert RowsText(data, times, delays, timeText) == FormatRow(row.time, row.delay, row.value) + tail;
      ReadFormattedRow(row.time, row.delay, row.value, tail);
      ReadRowsStep(FormatRow(row.time, row.delay, row.value) + tail, row, tail);
      RowsReadBack(data[1..], times[1..], delays[1..], timeText);
      DecodedCons(data, times, delays, timeText);
    } else {
      assert Decoded(data, times, delays, timeText) == [];
    }
  }

  lemma ReadRowsStep(s: string, row: Row, rest: string)
    requires ReadRow(s) == Some((row, rest))
    ensures ReadRows(s) == if ReadRows(rest).Some? then Some([row] + ReadRows(rest).value) else None
  {
  }

  lemma DecodedCons(data: seq<Payload>, times: seq<Timestamp>, delays: seq<int>, timeText: Timestamp -> string)
    requires SameLengths(data, times, delays) && Decodable(data) && |data| > 0
    ensures Decoded(data, times, delays, timeText)
         == [Row(timeText(times[0]), delays[0], data[0][0] != 0)] + Decoded(data[1..], times[1..], delays[1..], timeText)
  {
  }

  /** What write_to_csv appends to a non-empty file reads back as the rows of the batch up to the
      first payload that does not decode; when every payload decodes, as all of its rows. */
  lemma AppendedRowsReadBack(contents: string, data: seq<Payload>, times: seq<Timestamp>,
                             delays: seq<int>, timeText: Timestamp -> string)
    requires SameLengths(data, times, delays) && contents != ""
    requires CommaFreeTimes(timeText)
    ensures var r := CsvAppend(contents, data, times, delays, timeText);
            var k := FirstUndecodable(data);
            && r.contents[..|contents|] == contents
            && ReadRows(r.contents[|contents|..]) == Some(Decoded(data[..k], times[..k], delays[..k], timeText))
            && (Decodable(data) ==> ReadRows(r.contents[|contents|..]) == Some(Decoded(data, times, delays, timeText)))
  {
    var k := FirstUndecodable(data);
    var rows := RowsText(data[..k], times[..k], delays[..k], timeText);
    RowsReadBack(data[..k], times[..k], delays[..k], timeText);
    assert (contents + rows)[|contents|..] == rows;
    if Decodable(data) {
      assert data[..k] == data && times[..k] == times && delays[..k] == delays;
    }
  }

  lemma RowsTextStep(data: seq<Payload>, times: seq<Timestamp>, delays: seq<int>,
                     timeText: Timestamp -> string, i: nat, k: nat)
    requires SameLengths(data, times, delays) && i < k <= |data|
    requires forall j :: 0 <= j < k ==> |data[j]| == 1
    ensures RowsText(data[i..k], times[i..k], delays[i..k], timeText)
         == FormatRow(timeText(times[i]), delays[i], data[i][0] != 0)
            + RowsText(data[i + 1..k], times[i + 1..k], delays[i + 1..k], timeText)
  {
    assert data[i..k][1..] == data[i + 1..k];
    assert times[i..k][1..] == times[i + 1..k];
    assert delays[i..k][1..] == delays[i + 1..k];
  }

  /** One pass of the write loop: appending row i to the text written so far leaves the rows
      after i still to go. */
  lemma AppendRowStep(data: seq<Payload>, times: seq<Timestamp>, delays: seq<int>,
                      timeText: Timestamp -> string, i: nat, k: nat, text: string, target: string)
    requires SameLengths(data, times, delays) && i < k <= |data|
    requires forall j :: 0 <= j < k ==> |data[j]| == 1
    requires text + RowsText(data[i..k], times[i..k], delays[i..k], timeText) == target
    ensures (text + FormatRow(timeText(times[i]), delays[i], data[i][0] != 0))
            + RowsText(data[i + 1..k], times[i + 1..k], delays[i + 1..k], timeText) == target
  {
    RowsTextStep(data, times, delays, timeText, i, k);
  }

  /** The sink object: DataToFile with its output path, and the file's current contents. */
  class DataToFile {
    const path: string
    /** str() of a timestamp, a formatting function this model does not look into */
    const timeText: Timestamp -> string
    var contents: string

    constructor (path: string, timeText: Timestamp -> string, existing: string)
      ensures this.path == path && this.timeText == timeText && contents == existing
    {
      this.path := path;
      this.timeText := timeText;
      contents := existing;
    }

    /** write_to_csv(data_values, times, delays) */
    method WriteToCsv(data: seq<Payload>, times: seq<Timestamp>, delays: seq<int>) returns (status: WriteStatus)
      modifies this`contents
      ensures CsvResult(contents, status) == CsvAppend(old(contents), data, times, delays, timeText)
    {
      if !SameLengths(data, times, delays) {
        return LengthMismatch;
      }
      if contents == "" {
        contents := Header();
        return Written;
      }
      status := AppendRows(data, times, delays);
    }

    /** The loop of write_to_csv over a non-empty file: decode each payload and append its row,
        stopping at the first payload that does not decode. */
    method AppendRows(data: seq<Payload>, times: seq<Timestamp>, delays: seq<int>) returns (status: WriteStatus)
      requires SameLengths(data, times, delays)
      modifies this`contents
      ensures var k := FirstUndecodable(data);
              && contents == old(contents) + RowsText(data[..k], times[..k], delays[..k], timeText)
              && status == if k == |data| then Written else DecodeError(k)
    {
      var k := FirstUndecodable(data);
      ghost var target := contents + RowsText(data[..k], times[..k], delays[..k], timeText);
      assert data[0..k] == data[..k] && times[0..k] == times[..k] && delays[0..k] == delays[..k];
      var text := contents;
      status := Written;
      var i := 0;
      while i < |data|
        invariant 0 <= i <= k
        invariant text + RowsText(data[i..k], times[i..k], delays[i..k], timeText) == target
      {
        var value := DecodeBool(data[i]);
        if value.None? {
          status := DecodeError(i);
          break;
        }
        assert i < k;
        AppendRowStep(data, times, delays, timeText, i, k, text, target);
        text := text + FormatRow(timeText(times[i]), delays[i], value.value);
        i := i + 1;
      }
      assert data[k..k] == [] && times[k..k] == [] && delays[k..k] == [];
      contents := text;
    }
  }
}
