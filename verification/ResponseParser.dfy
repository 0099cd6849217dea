/** Decoding one candidate response frame into the caller's response object. */
module ResponseParser {
  import opened Words
  import Crc16
  import opened Protocol
  import opened Status

  /** The decoded response: a flag, a fixed four-byte buffer, and how much of it is filled. */
  class Response {
    var ack: bool
    const data: array<byte>
    var dataLen: nat

    constructor ()
      ensures fresh(data) && data.Length == MAX_RESPONSE_DATA
      ensures !ack && dataLen == 0
    {
      ack := false;
      data := new byte[MAX_RESPONSE_DATA](_ => 0);
      dataLen := 0;
    }

    ghost predicate Holds(r: Reply)
      reads this, data
    {
      dataLen == |r.data| <= data.Length && ack == r.ack && data[..dataLen] == r.data
    }
  }

  method CopyData(frame: array<byte>, from: nat, data: array<byte>, count: nat)
    requires from + count <= frame.Length && count <= data.Length && frame != data
    modifies data
    ensures data[..] == Overlaid(old(data[..]), 0, frame[from..from + count])
  {
    hide Overlaid;
    ghost var before := data[..];
    OverlaidNothing(before, 0);
    assert frame[from..from] == [];
    for i := 0 to count
      invariant data[..] == Overlaid(before, 0, frame[from..from + i])
    {
      OverlaidOne(before, 0, frame[from..from + i], frame[from + i]);
      assert frame[from..from + i + 1] == frame[from..from + i] + [frame[from + i]];
      data[i] := frame[from + i];
    }
  }

  /** The checks and the copy, for a caller that passed no null pointer. */
  method Decode(frame: array<byte>, frameLen: nat, response: Response) returns (status: int)
    requires frameLen <= frame.Length && response.data.Length == MAX_RESPONSE_DATA && frame != response.data
    modifies response, response.data
    ensures match ParseReply(frame[..frameLen])
            case Some(r) =>
              status == OK && response.ack == r.ack && response.dataLen == |r.data| &&
              response.data[..] == Overlaid(old(response.data[..]), 0, r.data)
            case None =>
              status == ERR_BAD_FRAME && unchanged(response) && unchanged(response.data)
  {
    if frameLen < MIN_RESPONSE_FRAME || frame[0] != SOF {
      return ERR_BAD_FRAME;
    }
    var length := frame[1] as nat;
    if length < MIN_RESPONSE_LEN || length > MAX_RESPONSE_LEN {
      return ERR_BAD_FRAME;
    }
    if frameLen < RESPONSE_OVERHEAD + length {
      return ERR_BAD_FRAME;
    }
    hide Crc16.Crc, FromLe16;
    ghost var s := frame[..frameLen];
    SliceOfPrefix(frame, frameLen, 1, 2 + length);
    SliceOfPrefix(frame, frameLen, 3, 2 + length);
    var computed := Crc16.Compute(frame, 1, length + 1);
    var received := FromLe16(frame[2 + length], frame[3 + length]);
    if computed != received {
      return ERR_BAD_FRAME;
    }
    ghost var reply := Reply(frame[2] != 0, s[3..2 + length]);
    assert ParseReply(s) == Some(reply);
    hide ParseReply, Overlaid;
    response.ack := frame[2] != 0;
    response.dataLen := length - 1;
    CopyData(frame, 3, response.data, response.dataLen);
    return OK;
  }

  method ParseResponse(frame: array?<byte>, frameLen: nat, response: Response?) returns (status: int)
    requires frame != null ==> frameLen <= frame.Length
    requires response != null ==> response.data.Length == MAX_RESPONSE_DATA && frame != response.data
    modifies response, if response == null then null else response.data
    ensures frame == null || response == null ==> status == ERR_ARG
    ensures frame != null && response != null ==>
              match ParseReply(frame[..frameLen])
              case Some(r) => status == OK && response.Holds(r)
              case None => status == ERR_BAD_FRAME
    ensures response != null && status != OK ==> unchanged(response) && unchanged(response.data)
  {
    hide ParseReply, Overlaid;
    if frame == null || response == null {
      return ERR_ARG;
    }
    ghost var before, r := response.data[..], ParseReply(frame[..frameLen]);
    status := Decode(frame, frameLen, response);
    if r.Some? {
      OverlaidFront(before, r.value.data);
    }
  }
}
