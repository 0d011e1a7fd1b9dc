/** Multi-frame messages of the Majordomo protocol, and their addressing envelopes. */
module MdpMessage {
  /** One action of a request: its id and its name.  The id is the one that the code reads; where there is
      none to read, the code takes the id unknown. */
  datatype Action = Action(id: string, name: string)

  /** One result: of an action that a worker ran, the error for an action whose name no worker knows, of
      an action that the broker ran itself, or the report of a message that breaks off. */
  datatype Result = Done(id: string) | Rejected(id: string) | Local | Malformed(id: string)

  /** The result answers the action with its id. */
  predicate Reports(r: Result) {
    r.Done? || r.Rejected?
  }

  /** What the code reads from and writes into JSON bodies.  A request that is not well formed breaks
      off after the listed actions. */
  datatype Body =
    | Request(session: string, actions: seq<Action>, wellFormed: bool)
    | Results(session: string, results: seq<Result>)

  /** A frame is plain bytes or a JSON text; of a JSON text only the meaning is kept. */
  datatype Frame = Text(text: string) | Json(body: Body)

  type Msg = seq<Frame>

  const NUL := 0 as char
  // any JSON text read as an address: not empty, and without NUL
  const JSON_TEXT := "{}"

  const MDPC_CLIENT := "MDPC01"
  const MDPW_WORKER := "MDPW01"
  const READY := [1 as char]
  const REQUEST := [2 as char]
  const REPLY := [3 as char]
  const HEARTBEAT := [4 as char]
  const DISCONNECT := [5 as char]

  /** A byte string read as a C string ends before its first NUL. */
  function CStr(s: string): (r: string)
    ensures NUL !in r && r <= s
    ensures NUL !in s ==> r == s
  {
    if s == "" || s[0] == NUL then ""
    else
      assert NUL !in s ==> NUL !in s[1..];
      [s[0]] + CStr(s[1..])
  }

  function FrameText(f: Frame): string {
    match f
    case Text(s) => CStr(s)
    case Json(_) => JSON_TEXT
  }

  function Wrap(msg: Msg, address: string, delim: string): Msg {
    [Text(CStr(address)), Text(CStr(delim))] + msg
  }

  /** The address in front, and the message without it and without the empty delimiter after it. */
  function Unwrap(msg: Msg): (string, Msg) {
    if msg == [] then ("", [])
    else (FrameText(msg[0]), if |msg| > 1 && FrameText(msg[1]) == "" then msg[2..] else msg[1..])
  }

  /** What the body of a message, its last frame, asks for: a body that is no JSON text, or no
      request, is malformed. */
  function RequestOf(msg: Msg): (r: Body)
    ensures r.Request?
  {
    if msg != [] && msg[|msg| - 1].Json? && msg[|msg| - 1].body.Request? then msg[|msg| - 1].body
    else Request("", [], false)
  }

  /** Unwrapping undoes wrapping exactly for the addresses without NUL; a NUL cuts an address short. */
  lemma UnwrapWrapIff(msg: Msg, address: string)
    ensures Unwrap(Wrap(msg, address, "")) == (address, msg) <==> NUL !in address
  {
    var wrapped := Wrap(msg, address, "");
    assert wrapped[1] == Text("") && wrapped[2..] == msg;
    assert FrameText(wrapped[0]) == CStr(CStr(address));
  }
}

/** zmsg: the message object, and the translation of binary identities on the wire. */
module ZmqMessage {
  import opened MdpMessage

  const UUID_LEN := 17
  const UUID_TEXT_LEN := 33
  const HEX_CHAR := "0123456789ABCDEF"

  /** The hexadecimal digits, with capital letters. */
  lemma HexDigits(d: nat)
    requires d < 16
    ensures HEX_CHAR[d] as int == if d < 10 then '0' as int + d else 'A' as int + (d - 10)
  {
  }

  /** Strings of bytes. */
  predicate IsBytes(s: string) {
    forall i :: 0 <= i < |s| ==> s[i] as int < 256
  }

  /** The two hexadecimal digits of a byte. */
  function Hi(c: char): (r: char)
    requires c as int < 256
    ensures r != NUL
  {
    HEX_CHAR[c as int / 16]
  }

  function Lo(c: char): (r: char)
    ensures r != NUL
  {
    HEX_CHAR[c as int % 16]
  }

  /** The table hex_to_bin; -1 where there is no digit. */
  function HexToBin(c: int): int {
    if '0' as int <= c <= '9' as int then c - '0' as int
    else if 'A' as int <= c <= 'F' as int then c - 'A' as int + 10
    else if 'a' as int <= c <= 'f' as int then c - 'a' as int + 10
    else -1
  }

  /** Two digits make a byte. */
  function ByteOf(hi: char, lo: char): char {
    ((HexToBin(hi as int % 128) * 16 + HexToBin(lo as int % 128)) % 256) as char
  }

  function HexOf(data: string): (r: string)
    requires IsBytes(data)
    ensures |r| == 2 * |data|
    ensures forall b :: 0 <= b < |data| ==> r[2 * b] == Hi(data[b]) && r[2 * b + 1] == Lo(data[b])
    ensures NUL !in r
  {
    if data == "" then "" else [Hi(data[0]), Lo(data[0])] + HexOf(data[1..])
  }

  predicate IsUuid(data: string) {
    |data| == UUID_LEN && IsBytes(data) && data[0] == NUL
  }

  function Encoded(data: string): string
    requires IsUuid(data)
  {
    "@" + HexOf(data[1..])
  }

  /** encode_uuid: 17 bytes, the first of them 0, as 33 printable characters. */
  method EncodeUuid(data: string) returns (uuid: string)
    requires IsUuid(data)
    ensures uuid == Encoded(data)
  {
    var buffer := new char[UUID_TEXT_LEN](_ => NUL);
    buffer[0] := '@';
    for b := 0 to 16
      invariant buffer[0] == '@'
      invariant forall c :: 0 <= c < b ==>
                  buffer[2 * c + 1] == Hi(data[c + 1]) && buffer[2 * c + 2] == Lo(data[c + 1])
    {
      buffer[2 * b + 1] := Hi(data[b + 1]);
      buffer[2 * b + 2] := Lo(data[b + 1]);
    }
    uuid := buffer[..];
    EncodedAt(data, uuid);
  }

  lemma EncodedAt(data: string, uuid: string)
    requires IsUuid(data) && |uuid| == UUID_TEXT_LEN && uuid[0] == '@'
    requires forall c :: 0 <= c < 16 ==> uuid[2 * c + 1] == Hi(data[c + 1]) && uuid[2 * c + 2] == Lo(data[c + 1])
    ensures uuid == Encoded(data)
  {
    var hex := HexOf(data[1..]);
    forall i | 1 <= i < UUID_TEXT_LEN
      ensures uuid[i] == hex[i - 1]
    {
      var c := (i - 1) / 2;
      assert data[1..][c] == data[c + 1];
      assert i == 2 * c + 1 || i == 2 * c + 2;
    }
  }

  function Decoded(uuid: string): (r: string)
    requires |uuid| == UUID_TEXT_LEN
    ensures |r| == UUID_LEN && r[0] == NUL
    ensures forall b :: 0 <= b < 16 ==> r[b + 1] == ByteOf(uuid[2 * b + 1], uuid[2 * b + 2])
  {
    [NUL] + seq(16, b requires 0 <= b < 16 => ByteOf(uuid[2 * b + 1], uuid[2 * b + 2]))
  }

  method DecodeUuid(uuid: string) returns (data: string)
    requires |uuid| == UUID_TEXT_LEN && uuid[0] == '@' && NUL !in uuid
    ensures data == Decoded(uuid)
  {
    var buffer := new char[UUID_LEN](_ => NUL);
    for b := 0 to 16
      invariant buffer[0] == NUL
      invariant forall c :: 0 <= c < b ==> buffer[c + 1] == ByteOf(uuid[2 * c + 1], uuid[2 * c + 2])
    {
      buffer[b + 1] := ByteOf(uuid[2 * b + 1], uuid[2 * b + 2]);
    }
    data := buffer[..];
    assert data == Decoded(uuid);
  }

  lemma HexDigit(v: int)
    requires 0 <= v < 16
    ensures HexToBin(HEX_CHAR[v] as int % 128) == v
  {
  }

  lemma HexByte(c: char)
    requires c as int < 256
    ensures ByteOf(Hi(c), Lo(c)) == c
  {
    HexDigit(c as int / 16);
    HexDigit(c as int % 16);
  }

  /** Decoding undoes encoding on every 17-byte identity that starts with 0. */
  lemma DecodeUndoesEncode(data: string)
    requires IsUuid(data)
    ensures |Encoded(data)| == UUID_TEXT_LEN && Decoded(Encoded(data)) == data
    ensures Printed(Text(Encoded(data))) && NUL !in Encoded(data)
  {
    var uuid := Encoded(data);
    forall i | 0 <= i < UUID_LEN
      ensures Decoded(uuid)[i] == data[i]
    {
      if i > 0 {
        var b := i - 1;
        assert data[1..][b] == data[i];
        HexByte(data[i]);
        assert uuid[2 * b + 1] == Hi(data[i]) && uuid[2 * b + 2] == Lo(data[i]);
      }
    }
  }

  predicate Printed(f: Frame) {
    f.Text? && |f.text| == UUID_TEXT_LEN && f.text[0] == '@'
  }

  // ----- What becomes of frames on their way

  /** What send puts on the wire for a frame. */
  function OnWire(f: Frame): Frame {
    if Printed(f) then Text(Decoded(f.text)) else f
  }

  /** What recv makes of a frame on the wire. */
  function OffWire(f: Frame): Frame {
    if f.Text? && IsUuid(f.text) then Text(Encoded(f.text)) else f
  }

  function Sent(msg: Msg): Msg {
    seq(|msg|, i requires 0 <= i < |msg| => OnWire(msg[i]))
  }

  function Received(wire: Msg): Msg {
    seq(|wire|, i requires 0 <= i < |wire| => OffWire(wire[i]))
  }

  /** A frame that is the same after it was sent and received, and when it is read as a C string. */
  predicate Unchanged(f: Frame) {
    f.Json? || (NUL !in f.text && (Printed(f) ==> IsCanonical(f.text)))
  }

  /** Printed as the code prints it. */
  predicate IsCanonical(uuid: string)
    requires |uuid| == UUID_TEXT_LEN
  {
    IsUuid(Decoded(uuid)) && Encoded(Decoded(uuid)) == uuid
  }

  lemma UnchangedIff(f: Frame)
    ensures Unchanged(f) <==> OffWire(OnWire(f)) == f && (f.Text? ==> NUL !in f.text)
  {
    if Printed(f) {
      DecodedIsUuid(f.text);
    }
  }

  predicate Crosses(msg: Msg) {
    forall i :: 0 <= i < |msg| ==> Unchanged(msg[i])
  }

  lemma CrossesUnchanged(msg: Msg)
    requires Crosses(msg)
    ensures Received(Sent(msg)) == msg
  {
    forall i | 0 <= i < |msg|
      ensures Received(Sent(msg))[i] == msg[i]
    {
      UnchangedIff(msg[i]);
    }
  }

  lemma DecodedIsUuid(uuid: string)
    requires |uuid| == UUID_TEXT_LEN
    ensures IsUuid(Decoded(uuid))
  {
    forall i | 0 <= i < UUID_LEN
      ensures Decoded(uuid)[i] as int < 256
    {
      if i > 0 {
        assert Decoded(uuid)[i] == ByteOf(uuid[2 * (i - 1) + 1], uuid[2 * (i - 1) + 2]);
      }
    }
  }

  /** The text under which the broker knows a client with this identity. */
  function AddressText(identity: string): string {
    FrameText(OffWire(Text(identity)))
  }

  /** A client to which the broker can reply: a binary identity, or one without NUL that does not look
      like a printed binary identity. */
  predicate Routable(identity: string) {
    IsUuid(identity) || (identity != "" && NUL !in identity && !Printed(Text(identity)))
  }

  lemma RoutableCrosses(identity: string)
    requires Routable(identity)
    ensures var t := AddressText(identity);
            t != "" && NUL !in t && Unchanged(Text(t)) && OnWire(Text(t)) == Text(identity)
  {
    if IsUuid(identity) {
      DecodeUndoesEncode(identity);
    }
  }

  /** Where the reply goes: the address crosses to a worker and back, and is sent to the client. */
  function ReturnAddress(identity: string): Frame {
    OnWire(OffWire(OnWire(OffWire(OnWire(Text(AddressText(identity)))))))
  }

  /** The reply goes to the identity that asked if and only if the identity is routable. */
  lemma RepliesReturnIff(identity: string)
    requires IsBytes(identity) && identity != ""
    ensures ReturnAddress(identity) == Text(identity) <==> Routable(identity)
  {
    var t := AddressText(identity);
    if Routable(identity) {
      RoutableCrosses(identity);
    } else if Printed(Text(t)) {
      DecodedIsUuid(t);
      DecodeUndoesEncode(Decoded(t));
      assert ReturnAddress(identity) == Text(Decoded(t));
    } else {
      assert !IsUuid(t);
      assert ReturnAddress(identity) == Text(t);
    }
  }

  /** An instance: the reply to this client leaves for another. */
  lemma MisaddressedExample()
    ensures var identity := "@0000000000000000000000000000000A"; ReturnAddress(identity) != Text(identity)
  {
    var identity := "@0000000000000000000000000000000A";
    assert |identity| == UUID_TEXT_LEN && Printed(Text(identity));
    RepliesReturnIff(identity);
  }

  ghost predicate IsWire(msg: Msg) {
    forall i :: 0 <= i < |msg| && msg[i].Text? ==> IsBytes(msg[i].text)
  }

  class Zmsg {
    var parts: Msg

    constructor ()
      ensures parts == []
    {
      parts := [];
    }

    method PushFront(part: string)
      modifies this
      ensures parts == [Text(CStr(part))] + old(parts)
    {
      parts := [Text(CStr(part))] + parts;
    }

    method PopFront() returns (part: Frame)
      modifies this
      ensures if old(parts) == [] then part == Text("") && parts == [] else [part] + parts == old(parts)
    {
      if parts == [] {
        return Text("");
      }
      part, parts := parts[0], parts[1..];
    }

    /** The last frame is the body. */
    method BodySet(body: Frame)
      modifies this
      ensures parts == (if old(parts) == [] then [] else old(parts)[..|old(parts)| - 1]) + [body]
    {
      if parts != [] {
        parts := parts[..|parts| - 1];
      }
      parts := parts + [body];
    }

    method Wrap(address: string, delim: string)
      modifies this
      ensures parts == MdpMessage.Wrap(old(parts), address, delim)
    {
      PushFront(delim);
      PushFront(address);
      assert parts == MdpMessage.Wrap(old(parts), address, delim);
    }

    method Unwrap() returns (address: string)
      modifies this
      ensures (address, parts) == MdpMessage.Unwrap(old(parts))
    {
      if parts == [] {
        return "";
      }
      var front := PopFront();
      assert parts == old(parts)[1..];
      address := FrameText(front);
      if parts != [] && FrameText(parts[0]) == "" {
        assert parts[0] == old(parts)[1];
        var _ := PopFront();
        assert parts == old(parts)[1..][1..] == old(parts)[2..];
      }
    }

    /** The frames of a message on the wire; 17-byte identities are turned into text. */
    method Recv(wire: Msg)
      requires IsWire(wire)
      modifies this
      ensures parts == Received(wire)
    {
      parts := [];
      for n := 0 to |wire|
        invariant |parts| == n && forall i :: 0 <= i < n ==> parts[i] == OffWire(wire[i])
      {
        var frame := wire[n];
        if frame.Text? && |frame.text| == UUID_LEN && frame.text[0] == NUL {
          var uuid := EncodeUuid(frame.text);
          frame := Text(uuid);
        }
        parts := parts + [frame];
      }
    }

    /** The frames put on the wire; 33-character identities are turned back into bytes. */
    method Send() returns (wire: Msg)
      requires forall i :: 0 <= i < |parts| && Printed(parts[i]) ==> NUL !in parts[i].text
      modifies this
      ensures parts == [] && wire == Sent(old(parts))
    {
      wire := [];
      for n := 0 to |parts|
        invariant |wire| == n && parts == old(parts)
        invariant forall i :: 0 <= i < n ==> wire[i] == OnWire(parts[i])
      {
        var frame := parts[n];
        if Printed(frame) {
          var bin := DecodeUuid(frame.text);
          frame := Text(bin);
        }
        wire := wire + [frame];
      }
      parts := [];
    }
  }

  /** Receiving and sending again preserves a message exactly when it has no 33-byte frame that starts
      with @. */
  method Relay(wire: Msg) returns (relayed: Msg)
    requires IsWire(wire) && forall i :: 0 <= i < |wire| && Printed(wire[i]) ==> NUL !in wire[i].text
    ensures |relayed| == |wire|
    ensures forall i :: 0 <= i < |wire| ==> (relayed[i] == wire[i] <==> !Printed(wire[i]))
  {
    var msg := new Zmsg();
    msg.Recv(wire);
    forall i | 0 <= i < |wire|
      ensures Printed(msg.parts[i]) ==> NUL !in msg.parts[i].text
      ensures OnWire(msg.parts[i]) == wire[i] <==> !Printed(wire[i])
    {
      RelayedFrame(wire[i]);
    }
    relayed := msg.Send();
  }

  lemma RelayedFrame(f: Frame)
    requires Printed(f) ==> NUL !in f.text
    ensures Printed(OffWire(f)) ==> NUL !in OffWire(f).text
    ensures OnWire(OffWire(f)) == f <==> !Printed(f)
  {
    if f.Text? && IsUuid(f.text) {
      DecodeUndoesEncode(f.text);
    }
  }
}
