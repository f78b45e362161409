/** The user console of the acquisition script: one pass of user_console_manager, which reads a
    line, encodes it with int(s).to_bytes(1, byteorder="little") and writes the byte to the
    peripheral's write characteristic. */
module Console {
  import opened Text
  import opened BleConnection

  /** 256 to the power k: the number of values that k bytes can hold. */
  function Pow256(k: nat): (p: nat)
    ensures p >= 1
  {
    if k == 0 then 1 else 256 * Pow256(k - 1)
  }

  /** int.from_bytes(bs, byteorder="little"): the first byte is the least significant. */
  function LittleEndianValue(bs: seq<byte>): (v: nat)
    ensures v < Pow256(|bs|)
  {
    if |bs| == 0 then 0
    else
      var rest := LittleEndianValue(bs[1..]);
      assert rest <= Pow256(|bs| - 1) - 1;
      assert 256 * rest <= 256 * Pow256(|bs| - 1) - 256;
      bs[0] as nat + 256 * rest
  }

  /** The `length` little-endian bytes of n. */
  function LittleEndianBytes(n: nat, length: nat): (bs: seq<byte>)
    requires n < Pow256(length)
    ensures |bs| == length && LittleEndianValue(bs) == n
  {
    if length == 0 then []
    else
      assert n / 256 < Pow256(length - 1) by { DivBelow(n, Pow256(length - 1)); }
      var bs := [(n % 256) as byte] + LittleEndianBytes(n / 256, length - 1);
      assert bs[1..] == LittleEndianBytes(n / 256, length - 1);
      bs
  }

  lemma DivBelow(n: nat, p: nat)
    requires n < 256 * p
    ensures n / 256 < p
  {
  }

  /** int.to_bytes(length, byteorder="little") on an unsigned int: OverflowError (here None)
      for a negative n and for an n that does not fit in `length` bytes. */
  function ToBytesLittle(n: int, length: nat): (r: Option<seq<byte>>)
    ensures r.Some? <==> 0 <= n < Pow256(length)
    ensures r.Some? ==> |r.value| == length && LittleEndianValue(r.value) == n
  {
    if 0 <= n < Pow256(length) then Some(LittleEndianBytes(n, length)) else None
  }

  /** Encoding is the inverse of decoding: every byte string is the encoding of its value. */
  lemma {:induction false} ToBytesOfValue(bs: seq<byte>)
    ensures ToBytesLittle(LittleEndianValue(bs), |bs|) == Some(bs)
  {
    if |bs| > 0 {
      ToBytesOfValue(bs[1..]);
      var v := LittleEndianValue(bs);
      var rest := LittleEndianValue(bs[1..]);
      assert v % 256 == bs[0] as int && v / 256 == rest by {
        DivModOfDigit(bs[0] as int, rest);
      }
      assert LittleEndianBytes(v, |bs|) == [bs[0]] + LittleEndianBytes(rest, |bs| - 1);
      assert [bs[0]] + bs[1..] == bs;
    }
  }

  lemma DivModOfDigit(b: int, rest: int)
    requires 0 <= b < 256 && 0 <= rest
    ensures (b + 256 * rest) % 256 == b && (b + 256 * rest) / 256 == rest
  {
  }

  /** The single byte the console sends: to_bytes(1, "little") of n is [n] for 0 <= n <= 255
      and raises OverflowError for every other n. */
  lemma OneByte(n: int)
    ensures ToBytesLittle(n, 1) == if 0 <= n < 256 then Some([n as byte]) else None
  {
    if 0 <= n < 256 {
      var bs := LittleEndianBytes(n, 1);
      assert LittleEndianValue(bs) == bs[0] as int + 256 * LittleEndianValue(bs[1..]);
      assert bs == [n as byte];
    }
  }

  /** What one pass of user_console_manager does. */
  datatype ConsoleAction =
    | Sleep                                             // no client or not connected
    | Send(characteristic: string, bytes: seq<byte>)   // write_gatt_char(write_characteristic, bytes)
    | ValueError                                        // int(input_str) raises
    | OverflowError                                     // to_bytes(1, ...) raises

  /** The action taken for an input line once the connection is up. The global
      write_characteristic is the target, not the connection's own field. */
  function Encode(input: string): (a: ConsoleAction)
    ensures a.ValueError? <==> ParseInt(input).None?
    ensures a.OverflowError? <==> (ParseInt(input).Some? && !(0 <= ParseInt(input).value < 256))
    ensures a.Send? <==> (ParseInt(input).Some? && 0 <= ParseInt(input).value < 256)
    ensures a.Send? ==> (a.characteristic == WriteCharacteristic
                         && a.bytes == [ParseInt(input).value as byte])
    ensures !a.Sleep?
  {
    match ParseInt(input)
    case None => ValueError
    case Some(n) =>
      OneByte(n);
      match ToBytesLittle(n, 1)
      case None => OverflowError
      case Some(bytes) => Send(WriteCharacteristic, bytes)
  }

  /** One pass of user_console_manager: with a client and a live connection the input line is
      encoded and sent, otherwise the loop sleeps and the input is not read. On a connection
      that keeps its invariant, `connected` is only ever true with a client, so the console
      sleeps exactly while it is not connected. */
  function ConsoleStep(conn: Connection, input: string): (a: ConsoleAction)
    requires conn.Valid()
    reads conn
    ensures a.Sleep? <==> !conn.connected
    ensures conn.connected ==> a == Encode(input)
  {
    if conn.client.Some? && conn.connected then Encode(input) else Sleep
  }

  /** While connected, typing the decimal text of a byte value, with whitespace that int()
      skips around it, writes exactly that byte to the write characteristic. */
  lemma ConnectedConsoleSendsByte(conn: Connection, n: int, before: string, after: string)
    requires conn.Valid() && conn.connected && 0 <= n < 256
    requires forall i :: 0 <= i < |before| ==> IsIntSpace(before[i])
    requires forall i :: 0 <= i < |after| ==> IsIntSpace(after[i])
    ensures ConsoleStep(conn, before + IntText(n) + after) == Send(WriteCharacteristic, [n as byte])
  {
    ConsoleSendsByte(n, before, after);
  }

  /** Typing the decimal text of a byte value, with whitespace that int() skips around it
      (space, \t \n \v \f \r), sends that byte. */
  lemma ConsoleSendsByte(n: int, before: string, after: string)
    requires 0 <= n < 256
    requires forall i :: 0 <= i < |before| ==> IsIntSpace(before[i])
    requires forall i :: 0 <= i < |after| ==> IsIntSpace(after[i])
    ensures Encode(before + IntText(n) + after) == Send(WriteCharacteristic, [n as byte])
  {
    ParseIntPadded(n, before, after);
    NatTextShort(n);
  }

  /** The console does not strip its line: one that starts with a separator \x1c to \x1f is
      the ValueError of int(), whatever follows. */
  lemma ConsoleRejectsSeparator(c: char, rest: string)
    requires 28 <= c as int <= 31
    ensures Encode([c] + rest) == ValueError
  {
    ParseIntSeparator(c, rest);
  }

  /** The decimal text of an integer outside 0..255 raises OverflowError when it has at most
      MaxStrDigits digits, and the ValueError of the digit limit when it has more. */
  lemma ConsoleOverflows(n: int)
    requires n < 0 || n > 255
    ensures Encode(IntText(n)) == if DigitCount(n) <= MaxStrDigits then OverflowError else ValueError
  {
    ParseIntText(n);
  }
}
