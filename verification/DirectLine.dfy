/** The bootloader on a direct serial line: its frame decoder and framer on their buffers. */
module DirectLine {
  import opened Bytes
  import opened Framing
  import opened FirmwareDecoder

  class Line {
    const max: nat
    const escape: byte
    const receivedData: array<byte>
    const sendData: array<byte>
    var receivedEp: nat
    var received: bool
    var mayCut: bool
    var sendSize: nat
    var sent: seq<byte>         // what went through `USART_SendByte`

    ghost predicate Valid()
      reads this
    {
      && 0 < max && receivedData.Length == max && sendData.Length == max && receivedData != sendData
      && receivedEp <= max && sendSize <= max
    }

    ghost function View(): Direct
      requires Valid()
      reads this, receivedData
    {
      Direct(received, mayCut, receivedData[..receivedEp])
    }

    constructor (max: nat, escape: byte)
      requires 0 < max
      ensures Valid() && View() == Direct(false, false, []) && sendSize == 0 && sent == []
      ensures this.max == max && this.escape == escape
    {
      this.max, this.escape := max, escape;
      receivedData := new byte[max](_ => 0);
      sendData := new byte[max](_ => 0);
      receivedEp, received, mayCut, sendSize, sent := 0, false, false, 0, [];
    }

    method Store(b: byte)
      requires Valid() && receivedEp < max
      modifies this`receivedEp, receivedData
      ensures Valid() && receivedData[..receivedEp] == old(receivedData[..receivedEp]) + [b]
    {
      receivedData[receivedEp] := b;
      receivedEp := receivedEp + 1;
    }

    method OutRecByte(data: word)
      requires Valid()
      modifies this`receivedEp, this`received, this`mayCut, receivedData
      ensures Valid()
      ensures View() == if data > 255 then old(View()) else DirectByte(old(View()), max, escape, data)
    {
      if data > 255 || received {
        return;
      }
      if receivedEp >= max {
        receivedEp := 0;
      }
      var b: byte := data;
      if mayCut {
        if b == Not(escape) {
          received := true;
        } else {
          Store(b);
        }
        mayCut := false;
      } else if b == escape {
        mayCut := true;
      } else {
        Store(b);
      }
    }

    /** A pending packet goes out as one frame; without one nothing is sent. */
    method TrySendPacket()
      requires Valid()
      modifies this`sendSize, this`sent
      ensures Valid() && sendSize == 0
      ensures sent == old(sent) + if old(sendSize) == 0 then [] else Frame(sendData[..old(sendSize)], escape)
    {
      if sendSize != 0 {
        for i := 0 to sendSize
          invariant sent == old(sent) + Escaped(sendData[..i], escape)
        {
          assert sendData[..i + 1][..i] == sendData[..i];
          if sendData[i] == escape {
            sent := sent + [escape];
          }
          sent := sent + [sendData[i]];
        }
        sent := sent + [escape];
        sent := sent + [Not(escape)];
        sendSize := 0;
      }
    }
  }
}
