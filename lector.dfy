// lector.py: authenticate block 4 with Key A, falling back to Key B, write the text
// "hola mundo" zero-padded to one 16-byte block, and read the block back.

module Lector {
  import opened Driver
  import opened Authenticate

  /** The physical block written: the first data block of sector 1. */
  const BlockToWrite: int := 4

  const KeyA: seq<byte> := [0xD3, 0xF7, 0xD3, 0xF7, 0xD3, 0xF7]
  const KeyB: seq<byte> := [0xFF, 0xFF, 0xFF, 0xFF, 0xFF, 0xFF]

  /** The UTF-8 encoding of "hola mundo". */
  const Text: seq<byte> := [0x68, 0x6F, 0x6C, 0x61, 0x20, 0x6D, 0x75, 0x6E, 0x64, 0x6F]

  /** MIFARE Classic block size in bytes. */
  const BlockSize: nat := 16

  function Zeros(n: nat): (z: seq<byte>)
    ensures |z| == n
    ensures forall i :: 0 <= i < n ==> z[i] == 0
  {
    if n == 0 then [] else Zeros(n - 1) + [0]
  }

  /** `text_to_16bytes` on already encoded text: exactly one block, the first 16 bytes of
    * the input, padded with zero bytes when the input is shorter. */
  function TextTo16Bytes(b: seq<byte>): (r: seq<byte>)
    ensures |r| == BlockSize
    ensures forall i :: 0 <= i < BlockSize ==> r[i] == if i < |b| then b[i] else 0
  {
    if |b| > BlockSize then b[..BlockSize] else b + Zeros(BlockSize - |b|)
  }

  /** A short input is kept whole and followed by zero bytes; a long one loses everything
    * after byte 16. */
  lemma TextTo16BytesShape(b: seq<byte>)
    ensures |b| <= BlockSize ==> TextTo16Bytes(b)[..|b|] == b
    ensures |b| > BlockSize ==> TextTo16Bytes(b) == b[..BlockSize]
  {
  }

  /** `rstrip(b'\x00')`: the bytes with every trailing zero byte removed. */
  function StripTrailingZeros(b: seq<byte>): (r: seq<byte>)
    ensures r <= b
    ensures r == [] || r[|r| - 1] != 0
    ensures forall i :: |r| <= i < |b| ==> b[i] == 0
  {
    if b != [] && b[|b| - 1] == 0 then StripTrailingZeros(b[..|b| - 1]) else b
  }

  /** Padding, then stripping, gives back a short text that does not end in a zero byte. */
  lemma PadStripRoundTrip(b: seq<byte>)
    requires |b| <= BlockSize
    requires b == [] || b[|b| - 1] != 0
    ensures StripTrailingZeros(TextTo16Bytes(b)) == b
  {
  }

  /** The configured text fits in a block and reads back unchanged. */
  lemma TextFits()
    ensures TextTo16Bytes(Text) == Text + Zeros(BlockSize - |Text|)
    ensures StripTrailingZeros(TextTo16Bytes(Text)) == Text
  {
    PadStripRoundTrip(Text);
  }

  /** `try_authenticate` of lector.py: the key-type list is built by appending the symbol
    * and then the command code for the label, and is then tried in order. */
  method TryAuthenticate(auth: AuthDriver, block: int, key: seq<byte>, keyLabel: char)
    returns (ok: bool, trace: seq<Attempt>)
    ensures trace == Attempts(auth, block, key, KeyTypesFor(keyLabel))
    ensures ok == Authenticates(trace)
  {
    var attempts: seq<KeyType> := [];
    if keyLabel == 'A' {
      attempts := attempts + [Letter('A')];
      attempts := attempts + [Code(0x60)];
    } else {
      attempts := attempts + [Letter('B')];
      attempts := attempts + [Code(0x61)];
    }
    assert attempts == KeyTypesFor(keyLabel);
    ok, trace := TryKeyTypes(auth, block, key, attempts);
  }

  /** How one detected card ends: authentication failed under both keys, the write raised,
    * or the block was written and then read back (the script then stops). */
  datatype CardEnd = AuthFailed | WriteFailed | Finished(readBack: ReadOutcome)

  /** What one detected card leaves behind: the driver calls made, the key used, the block
    * payload written, how it ended, and the recovered text bytes when the read returned data. */
  datatype CardReport = CardReport(
    calls: seq<Attempt>,
    keyUsed: Option<seq<byte>>,
    written: Option<seq<byte>>,
    end: CardEnd,
    shown: Option<seq<byte>>)

  /** The body of `main`'s polling loop for one detected card. */
  function Session(auth: AuthDriver, reader: ReadDriver, writer: WriteDriver, block: int,
                   keyA: seq<byte>, keyB: seq<byte>, text: seq<byte>): CardReport
  {
    var traceA := Attempts(auth, block, keyA, KeyTypesFor('A'));
    var traceB := Attempts(auth, block, keyB, KeyTypesFor('B'));
    var calls := if Authenticates(traceA) then traceA else traceA + traceB;
    var keyUsed := if Authenticates(traceA) then Some(keyA) else if Authenticates(traceB) then Some(keyB) else None;
    var data := TextTo16Bytes(text);
    if keyUsed.None? then CardReport(calls, None, None, AuthFailed, None)
    else if writer(block, data) == WriteErr then CardReport(calls, keyUsed, Some(data), WriteFailed, None)
    else
      var back := reader(block);
      CardReport(calls, keyUsed, Some(data), Finished(back),
        if back.Data? then Some(StripTrailingZeros(back.bytes)) else None)
  }

  /** The Key A / Key B fallback of `main` and the write and read-back that follow it. */
  method WriteCard(auth: AuthDriver, reader: ReadDriver, writer: WriteDriver, block: int,
                   keyA: seq<byte>, keyB: seq<byte>, text: seq<byte>)
    returns (report: CardReport)
    ensures report == Session(auth, reader, writer, block, keyA, keyB, text)
  {
    var ok, calls := TryAuthenticate(auth, block, keyA, 'A');
    var keyUsed: seq<byte>;
    if !ok {
      var traceB;
      ok, traceB := TryAuthenticate(auth, block, keyB, 'B');
      calls := calls + traceB;
      if !ok {
        report := CardReport(calls, None, None, AuthFailed, None);
        return;
      } else {
        keyUsed := keyB;
      }
    } else {
      keyUsed := keyA;
    }
    var data := TextTo16Bytes(text);
    var w := writer(block, data);
    if w == WriteErr {
      report := CardReport(calls, Some(keyUsed), Some(data), WriteFailed, None);
      return;
    }
    var back := reader(block);
    var shown: Option<seq<byte>> := None;
    if back.Data? {
      shown := Some(StripTrailingZeros(back.bytes));
    }
    report := CardReport(calls, Some(keyUsed), Some(data), Finished(back), shown);
  }

  /** Key B is tried only when Key A failed: the calls are those of Key A alone when it
    * authenticated, and otherwise those of Key A followed by those of Key B. */
  lemma FallbackOrder(auth: AuthDriver, reader: ReadDriver, writer: WriteDriver, block: int,
                      keyA: seq<byte>, keyB: seq<byte>, text: seq<byte>)
    ensures var r := Session(auth, reader, writer, block, keyA, keyB, text);
      var traceA := Attempts(auth, block, keyA, KeyTypesFor('A'));
      traceA <= r.calls &&
      (r.calls == traceA <==> AuthenticatesAs(auth, block, keyA, 'A'))
    ensures var r := Session(auth, reader, writer, block, keyA, keyB, text);
      !AuthenticatesAs(auth, block, keyA, 'A') ==>
        r.calls == Attempts(auth, block, keyA, KeyTypesFor('A')) + Attempts(auth, block, keyB, KeyTypesFor('B'))
  {
  }

  /** The key used is Key A when it authenticated, Key B when only it did, and none
    * otherwise; a payload is written exactly when a key was used, and it is the padded text.
    * After a write error the card is abandoned; otherwise the block is read back once. */
  lemma KeyUsedAndWrite(auth: AuthDriver, reader: ReadDriver, writer: WriteDriver, block: int,
                        keyA: seq<byte>, keyB: seq<byte>, text: seq<byte>)
    ensures var r := Session(auth, reader, writer, block, keyA, keyB, text);
      (AuthenticatesAs(auth, block, keyA, 'A') ==> r.keyUsed == Some(keyA)) &&
      (!AuthenticatesAs(auth, block, keyA, 'A') && AuthenticatesAs(auth, block, keyB, 'B') ==> r.keyUsed == Some(keyB)) &&
      (r.keyUsed.None? <==> !AuthenticatesAs(auth, block, keyA, 'A') && !AuthenticatesAs(auth, block, keyB, 'B'))
    ensures var r := Session(auth, reader, writer, block, keyA, keyB, text);
      (r.written.Some? <==> r.keyUsed.Some?) &&
      (r.written.Some? ==> r.written.value == TextTo16Bytes(text) && |r.written.value| == BlockSize) &&
      (r.end == AuthFailed <==> r.keyUsed.None?)
    ensures var r := Session(auth, reader, writer, block, keyA, keyB, text);
      r.keyUsed.Some? ==>
        (r.end == WriteFailed <==> writer(block, TextTo16Bytes(text)) == WriteErr) &&
        (r.end.Finished? ==> r.end.readBack == reader(block))
  {
  }

  /** After a successful write the block is read back, and when the read returns the block
    * just written, a text of at most 16 bytes that does not end in a zero byte is recovered. */
  lemma ReadBackRoundTrip(auth: AuthDriver, reader: ReadDriver, writer: WriteDriver, block: int,
                          keyA: seq<byte>, keyB: seq<byte>, text: seq<byte>)
    requires |text| <= BlockSize && (text == [] || text[|text| - 1] != 0)
    requires reader(block) == Data(TextTo16Bytes(text))
    ensures var r := Session(auth, reader, writer, block, keyA, keyB, text);
      r.keyUsed.Some? && writer(block, TextTo16Bytes(text)) == Written ==>
        r.end == Finished(reader(block)) && r.shown == Some(text)
  {
    PadStripRoundTrip(text);
  }

  /** The script's own run: block 4 with its two keys and "hola mundo". */
  method WriteConfiguredCard(auth: AuthDriver, reader: ReadDriver, writer: WriteDriver)
    returns (report: CardReport)
    ensures report == Session(auth, reader, writer, BlockToWrite, KeyA, KeyB, Text)
    ensures report.written.Some? ==> report.written.value == Text + Zeros(BlockSize - |Text|)
  {
    TextFits();
    report := WriteCard(auth, reader, writer, BlockToWrite, KeyA, KeyB, Text);
  }
}
