/**
 Newline framing on the client side (passd/client.py): `_read_response` fills and trims one
 shared bytearray in place, whatever the pieces in which the stream arrives.
 */
module Framing {
  import opened Wrappers
  import opened Text
  import opened Json
  import opened JsonDocs

  const NEWLINE := '\n'

  // ---------- the stream of frames ----------

  function NewlineIndex(s: string): (n: nat)
    ensures n <= |s| && (n < |s| <==> NEWLINE in s)
    ensures n < |s| ==> s[n] == NEWLINE
    ensures forall i :: 0 <= i < n ==> s[i] != NEWLINE
  {
    if s == "" || s[0] == NEWLINE then 0 else 1 + NewlineIndex(s[1..])
  }

  function Flatten(chunks: seq<string>): string {
    if chunks == [] then "" else chunks[0] + Flatten(chunks[1..])
  }

  function Get(members: map<string, Value>, key: string): Value {
    if key in members then members[key] else Null
  }

  /** What one complete frame means to the caller. */
  function Interpret(raw: string): Result<Value> {
    var parsed := Loads(raw);
    if parsed.None? || !parsed.value.Obj? then Err(Internal)
    else if Truthy(Get(parsed.value.members, "ok")) then Ok(Get(parsed.value.members, "result"))
    else Err(RemoteError)
  }

  /** The result of one call on this stream, and the stream that is left for the next call. */
  function Receive(stream: string): (Result<Value>, string) {
    var n := NewlineIndex(stream);
    if n == |stream| then (Err(TransportError), stream)
    else (Interpret(stream[..n]), stream[n + 1..])
  }

  /** What a frame means, entry by entry: an object with a true "ok" is its "result", any other object an error of the service. */
  predicate Means(raw: string, r: Result<Value>) {
    match Loads(raw)
    case Some(Obj(members)) =>
      if "ok" in members && Truthy(members["ok"]) then r == Ok(if "result" in members then members["result"] else Null)
      else r == Err(RemoteError)
    case _ => r == Err(Internal)
  }

  /**
   One receive turned the stream into `rest`: a stream without a whole frame is an error that
   leaves everything where it is; otherwise the first frame, and only that, is taken and means `r`.
   */
  ghost predicate Received(stream: string, r: Result<Value>, rest: string) {
    if '\n' !in stream then r == Err(TransportError) && rest == stream
    else exists frame :: stream == frame + "\n" + rest && '\n' !in frame && Means(frame, r)
  }

  lemma ReceiveExactly(stream: string)
    ensures Received(stream, Receive(stream).0, Receive(stream).1)
  {
    hide Loads;
    var n := NewlineIndex(stream);
    if n < |stream| {
      var frame := stream[..n];
      assert stream == frame + "\n" + stream[n + 1..];
      assert Means(frame, Interpret(frame));
    }
  }

  function ReceiveMany(stream: string, calls: nat): (r: (seq<Result<Value>>, string))
    ensures |r.0| == calls
  {
    if calls == 0 then ([], stream)
    else
      var (first, rest) := Receive(stream);
      var (others, left) := ReceiveMany(rest, calls - 1);
      ([first] + others, left)
  }

  // ---------- the objects ----------

  class Bytearray {
    var data: string

    constructor ()
      ensures data == ""
    {
      data := "";
    }

    method Extend(chunk: string)
      modifies this
      ensures data == old(data) + chunk
    {
      data := data + chunk;
    }

    method DeleteFront(n: nat)
      requires n <= |data|
      modifies this
      ensures data == old(data)[n..]
    {
      data := data[n..];
    }
  }

  /** The peer's bytes arrive in chunks of any size; an empty chunk means that the peer has closed. */
  class Socket {
    var chunks: seq<string>
    var sent: seq<string>

    constructor (incoming: seq<string>)
      ensures chunks == incoming && sent == []
    {
      chunks := incoming;
      sent := [];
    }

    ghost predicate Valid()
      reads this
    {
      "" !in chunks
    }

    method Recv() returns (chunk: string)
      requires Valid()
      modifies this`chunks
      ensures Valid()
      ensures chunk == "" <==> old(chunks) == []
      ensures Flatten(old(chunks)) == chunk + Flatten(chunks)
      ensures |chunks| <= |old(chunks)| && (chunk != "" ==> |chunks| < |old(chunks)|)
    {
      if chunks == [] {
        chunk := "";
      } else {
        chunk := chunks[0];
        assert chunk in chunks;
        chunks := chunks[1..];
      }
    }

    method SendAll(request: string)
      modifies this`sent
      ensures sent == old(sent) + [request]
    {
      sent := sent + [request];
    }
  }

  method ReadResponse(sock: Socket, buffer: Bytearray) returns (r: Result<Value>, out: Bytearray)
    requires sock.Valid()
    modifies sock`chunks, buffer
    ensures sock.Valid() && out == buffer
    ensures (r, buffer.data + Flatten(sock.chunks)) == Receive(old(buffer.data + Flatten(sock.chunks)))
    ensures NEWLINE !in old(buffer.data + Flatten(sock.chunks)) ==> sock.chunks == []
    ensures Received(old(buffer.data + Flatten(sock.chunks)), r, buffer.data + Flatten(sock.chunks))
  {
    hide Interpret, Received;
    ReceiveExactly(buffer.data + Flatten(sock.chunks));
    out := buffer;
    ghost var stream := buffer.data + Flatten(sock.chunks);
    var open := true;
    while open && NEWLINE !in buffer.data
      invariant sock.Valid()
      invariant buffer.data + Flatten(sock.chunks) == stream
      invariant !open ==> sock.chunks == []
      decreases open, |sock.chunks|
    {
      ghost var before := buffer.data;
      var chunk := sock.Recv();
      if chunk == "" {
        open := false;
        assert Flatten(sock.chunks) == "" + Flatten(sock.chunks);
      } else {
        buffer.Extend(chunk);
        assert before + (chunk + Flatten(sock.chunks)) == (before + chunk) + Flatten(sock.chunks);
      }
    }
    if NEWLINE !in buffer.data {
      assert stream == buffer.data + "";
      return Err(TransportError), buffer;
    }
    var newline := NewlineIndex(buffer.data);
    var raw := buffer.data[..newline];
    FirstNewline(buffer.data, Flatten(sock.chunks));
    buffer.DeleteFront(newline + 1);
    r := Interpret(raw);
  }

  lemma FirstNewline(head: string, tail: string)
    requires NEWLINE in head
    ensures var n := NewlineIndex(head);
            && NewlineIndex(head + tail) == n
            && (head + tail)[..n] == head[..n] && (head + tail)[n + 1..] == head[n + 1..] + tail
  {
    var n := NewlineIndex(head);
    assert (head + tail)[..n] == head[..n];
    NewlineIndexIs(head + tail, n);
  }

  lemma NewlineIndexIs(text: string, n: nat)
    requires n < |text| && text[n] == NEWLINE && NEWLINE !in text[..n]
    ensures NewlineIndex(text) == n
  {
    assert text[NewlineIndex(text)] == NEWLINE;
    assert forall k :: 0 <= k < n ==> text[k] == text[..n][k];
  }

  class PassdSession {
    const sock: Socket
    var buffer: Bytearray

    constructor (sock: Socket)
      ensures this.sock == sock && fresh(buffer) && buffer.data == ""
    {
      this.sock := sock;
      buffer := new Bytearray();
    }

    /** Everything the peer has sent and no call has returned yet. */
    ghost function Pending(): string
      reads this, sock, buffer
    {
      buffer.data + Flatten(sock.chunks)
    }

    method Call(request: string) returns (r: Result<Value>)
      requires sock.Valid()
      modifies this, sock, buffer
      ensures sock.Valid() && buffer == old(buffer)
      ensures sock.sent == old(sock.sent) + [request]
      ensures (r, Pending()) == Receive(old(Pending()))
      ensures Received(old(Pending()), r, Pending())
    {
      hide Receive, Received;
      sock.SendAll(request);
      var result, trimmed := ReadResponse(sock, buffer);
      // An error leaves before the assignment; the bytearray has been trimmed in place all the same.
      if result.Ok? {
        buffer := trimmed;
      }
      r := result;
    }
  }

  // ---------- no response is lost, duplicated or merged ----------

  /** The bytes a server writes for these responses: each one is one text without a newline, and a newline. */
  function Wire(frames: seq<string>): string {
    if frames == [] then "" else frames[0] + [NEWLINE] + Wire(frames[1..])
  }

  lemma ReceiveFrame(frame: string, rest: string)
    requires NEWLINE !in frame
    ensures Receive(frame + [NEWLINE] + rest) == (Interpret(frame), rest)
  {
    hide Interpret;
    var stream, n := frame + [NEWLINE] + rest, |frame|;
    assert stream[..n] == frame && stream[n + 1..] == rest;
    NewlineIndexIs(stream, n);
  }

  /** Successive calls return the meaning of the successive frames, errors included, and leave what follows them. */
  lemma {:induction false} CallsReturnFrames(frames: seq<string>, rest: string)
    requires forall frame :: frame in frames ==> NEWLINE !in frame
    ensures var (results, left) := ReceiveMany(Wire(frames) + rest, |frames|);
            left == rest && |results| == |frames| && forall i :: 0 <= i < |frames| ==> results[i] == Interpret(frames[i])
  {
    hide Interpret, Receive;
    if frames == [] {
      assert Wire(frames) + rest == rest;
    } else {
      var tail := Wire(frames[1..]) + rest;
      assert Wire(frames) + rest == frames[0] + [NEWLINE] + tail;
      ReceiveFrame(frames[0], tail);
      CallsReturnFrames(frames[1..], rest);
    }
  }

  // ---------- the replies of the server ----------

  datatype Reply = Success(result: Doc) | Failure(error: Doc)

  function ReplyDoc(reply: Reply): Doc {
    match reply
    case Success(result) => Dict([Entry("ok", Leaf(Bool(true))), Entry("result", result)])
    case Failure(error) => Dict([Entry("ok", Leaf(Bool(false))), Entry("error", error)])
  }

  function Meaning(reply: Reply): Result<Value> {
    match reply
    case Success(result) => Ok(ToValue(result))
    case Failure(_) => Err(RemoteError)
  }

  lemma ReplyMembers(reply: Reply)
    ensures ToValue(ReplyDoc(reply)).Obj?
    ensures Truthy(Get(ToValue(ReplyDoc(reply)).members, "ok")) <==> reply.Success?
    ensures reply.Success? ==> Get(ToValue(ReplyDoc(reply)).members, "result") == ToValue(reply.result)
  {
    hide EntryValues;
    var d := ReplyDoc(reply);
    LastEntries(d, 1);
    LastEntries(d, 0);
    assert "ok"[0] == 'o' && "result"[0] == 'r' && "error"[0] == 'e';
  }

  /** Each reply of the server is one frame; a success means its result, a failure a remote error. */
  lemma InterpretReply(reply: Reply)
    ensures NEWLINE !in PrintDoc(ReplyDoc(reply)) && Interpret(PrintDoc(ReplyDoc(reply))) == Meaning(reply)
  {
    hide PrintDoc, Loads, ToValue, ReplyDoc, Truthy;
    LoadsPrintDoc(ReplyDoc(reply));
    PrintDocPrintable(ReplyDoc(reply));
    ReplyMembers(reply);
  }

  function Frames(replies: seq<Reply>): seq<string> {
    seq(|replies|, i requires 0 <= i < |replies| => PrintDoc(ReplyDoc(replies[i])))
  }

  /** Whatever the server replied, successive calls return the meanings of the successive replies. */
  lemma CallsReturnReplies(replies: seq<Reply>, rest: string)
    ensures ReceiveMany(Wire(Frames(replies)) + rest, |replies|)
         == (seq(|replies|, i requires 0 <= i < |replies| => Meaning(replies[i])), rest)
  {
    hide PrintDoc, ReplyDoc, Meaning, ReceiveMany, Wire, Interpret;
    forall i | 0 <= i < |replies| ensures NEWLINE !in Frames(replies)[i] && Interpret(Frames(replies)[i]) == Meaning(replies[i]) {
      InterpretReply(replies[i]);
    }
    CallsReturnFrames(Frames(replies), rest);
    assert ReceiveMany(Wire(Frames(replies)) + rest, |replies|).0 == seq(|replies|, i requires 0 <= i < |replies| => Meaning(replies[i]));
  }
}
