// PutBlock, GetBlock and the server loops, in C++ and in C, proved to compute Serve.
module BlockIO {
  import opened Bytes
  import opened Kernel
  import opened WrapSock
  import opened Blocks

  /** PutBlock (C++): both parts through SendAll. */
  method PutBlock(sock: Conn, message: seq<byte>) returns (st: Status)
    modifies sock`sent, sock`signals, sock`errors, sock`cut
    ensures st.Ok? || st.SysError?
    ensures st.Ok? ==> sock.sent == old(sock.sent) + Frame(message)
    ensures old(sock.sent) <= sock.sent <= old(sock.sent) + Frame(message)
    ensures sock.errors == old(sock.errors) + if st.SysError? then 1 else 0
  {
    st := SendAll(sock, Header(|message| % WORD));
    if st.Ok? {
      st := SendAll(sock, message);
    }
  }

  /** Send (C): one call, and anything but a full transfer ends the program. */
  method SendOnce(sock: Conn, data: seq<byte>) returns (st: Status)
    modifies sock`sent, sock`signals, sock`errors, sock`cut
    ensures st.Ok? || st.SysError?
    ensures st.Ok? ==> sock.sent == old(sock.sent) + data
    ensures old(sock.sent) <= sock.sent <= old(sock.sent) + data
    ensures sock.cut == old(sock.cut) + if st.SysError? then 1 else 0
  {
    var t := sock.Send(data);
    if t.Moved? && t.n == |data| {
      assert data[..t.n] == data;
      st := Ok;
    } else {
      st := SysError;
    }
  }

  /** PutBlock (C): `memory` is what the message pointer points to. */
  method PutBlockC(sock: Conn, memory: seq<byte>) returns (st: Status)
    modifies sock`sent, sock`signals, sock`errors, sock`cut
    ensures st.Ok? || st.SysError?
    ensures st.Ok? ==> sock.sent == old(sock.sent) + Frame(CString(memory))
    ensures old(sock.sent) <= sock.sent <= old(sock.sent) + Frame(CString(memory))
    ensures sock.cut == old(sock.cut) + if st.SysError? then 1 else 0
  {
    var message := CString(memory);
    st := SendOnce(sock, Header(|message| % WORD));
    if st.Ok? {
      st := SendOnce(sock, message);
    }
  }

  /** The header word, received and converted to host order. */
  method ReceiveHeader(sock: Conn) returns (st: Status, blockLength: nat)
    modifies sock`unread, sock`signals, sock`errors
    ensures st.Ok? ==>
              && |old(sock.unread)| >= HEADER && sock.unread == old(sock.unread)[HEADER..]
              && blockLength == HeaderValue(old(sock.unread)[..HEADER]) < WORD
    ensures st.ShortRead? ==> |old(sock.unread)| < HEADER && sock.unread == []
    ensures sock.errors == old(sock.errors) + if st.SysError? then 1 else 0
  {
    var word := new byte[HEADER];
    st := RecvAll(sock, word, 0, HEADER);
    HeaderCanonical(word[..]);
    blockLength := HeaderValue(word[..]);
    assert word[..] == word[0..0 + HEADER];
  }

  /** GetBlock (C++). */
  method GetBlock(sock: Conn) returns (st: Status, block: seq<byte>)
    modifies sock`unread, sock`signals, sock`errors
    ensures st.Ok? ==> HasBlock(old(sock.unread))
                       && block == Payload(old(sock.unread)) && sock.unread == AfterBlock(old(sock.unread))
    ensures st.ShortRead? ==> !HasBlock(old(sock.unread)) && sock.unread == []
    ensures sock.errors == old(sock.errors) + if st.SysError? then 1 else 0
  {
    ghost var stream := sock.unread;
    block := [];
    var blockLength;
    st, blockLength := ReceiveHeader(sock);
    if !st.Ok? {
      return;
    }
    SplitBlock(stream, blockLength);
    var buf := new byte[blockLength];
    st := RecvAll(sock, buf, 0, blockLength);
    if st.Ok? {
      block := buf[..];
    }
  }

  /** The receive loop of the C++ server, from the accepted connection to its end. */
  method Server(sock: Conn) returns (st: Status, printed: seq<seq<byte>>)
    modifies sock`unread, sock`signals, sock`errors
    ensures st.Ok? ==> Serve(Cxx, old(sock.unread)) == Session(printed, Stopped, sock.unread)
    ensures st.ShortRead? ==> Serve(Cxx, old(sock.unread)) == Session(printed, CutOff, sock.unread)
    ensures st.SysError? ==> printed <= Serve(Cxx, old(sock.unread)).blocks
    ensures sock.errors == old(sock.errors) + if st.SysError? then 1 else 0
  {
    ghost var stream := sock.unread;
    printed := [];
    PrecededTwice([], [], Serve(Cxx, stream));
    while true
      invariant Serve(Cxx, stream) == Preceded(printed, Serve(Cxx, sock.unread))
      invariant sock.errors == old(sock.errors)
      decreases |sock.unread|
    {
      ghost var before := sock.unread;
      var block;
      st, block := GetBlock(sock);
      if !st.Ok? {
        return;
      }
      if block == [] {
        return;
      }
      PrecededTwice(printed, [block], Serve(Cxx, sock.unread));
      printed := printed + [block];
    }
  }

  /** One more than the largest length, or nothing yet. */
  function Capacity(lengths: seq<nat>): nat {
    if lengths == [] then 0
    else
      var n := |lengths| - 1;
      if Capacity(lengths[..n]) < lengths[n] + 1 then lengths[n] + 1 else Capacity(lengths[..n])
  }

  lemma {:induction false} CapacityIsMax(lengths: seq<nat>)
    ensures forall i :: 0 <= i < |lengths| ==> lengths[i] < Capacity(lengths)
    ensures lengths != [] ==> Capacity(lengths) - 1 in lengths
  {
    if lengths != [] {
      CapacityIsMax(lengths[..|lengths| - 1]);
    }
  }

  datatype Fetched = Got | Lost(st: Status) | BufferWraps

  /** The C GetBlock and its two static variables: one buffer, reused and grown in place. */
  class BlockReader {
    var bufSize: nat
    var readBuf: array<byte>
    ghost var seen: seq<nat>  // the lengths of all headers received so far

    constructor ()
      ensures Valid() && fresh(readBuf) && seen == []
    {
      bufSize, seen := 0, [];
      readBuf := new byte[0];
    }

    ghost predicate Valid()
      reads this
    {
      bufSize == readBuf.Length == Capacity(seen)
    }

    /** The returned pointer, read as a string. */
    function Text(): seq<byte>
      reads this, readBuf
    {
      CString(readBuf[..])
    }

    /** realloc: the old contents, then bytes of any value. */
    method Grow()
      requires bufSize >= readBuf.Length
      modifies this`readBuf
      ensures fresh(readBuf) && readBuf.Length == bufSize
      ensures readBuf[..old(readBuf.Length)] == old(readBuf[..])
    {
      var bigger := new byte[bufSize];
      forall i | 0 <= i < readBuf.Length {
        bigger[i] := readBuf[i];
      }
      assert bigger[..readBuf.Length] == readBuf[..];
      readBuf := bigger;
    }

    method GetBlock(sock: Conn) returns (r: Fetched)
      requires Valid()
      modifies this, readBuf, sock`unread, sock`signals, sock`errors
      ensures Valid()
      ensures readBuf == old(readBuf) || fresh(readBuf)
      ensures bufSize >= old(bufSize)
      ensures r.Got? ==>
                && HasBlock(old(sock.unread)) && !Wraps(C, old(sock.unread))
                && var payload := Payload(old(sock.unread));
                && sock.unread == AfterBlock(old(sock.unread))
                && seen == old(seen) + [|payload|]
                && |payload| < readBuf.Length
                && readBuf[..|payload|] == payload && readBuf[|payload|] == NUL
                && Text() == CString(payload)
                && forall i :: |payload| < i < old(readBuf.Length) ==> readBuf[i] == old(readBuf[i])
      ensures r.BufferWraps? ==> Wraps(C, old(sock.unread)) && sock.unread == old(sock.unread)[HEADER..]
      ensures r.Lost? ==> r.st.ShortRead? || r.st.SysError?
      ensures r.Lost? && r.st.ShortRead? ==>
                !HasBlock(old(sock.unread)) && !Wraps(C, old(sock.unread)) && sock.unread == []
      ensures sock.errors == old(sock.errors) + if r == Lost(SysError) then 1 else 0
    {
      ghost var stream := sock.unread;
      var st, blockLength := ReceiveHeader(sock);
      if !st.Ok? {
        return Lost(st);
      }
      SplitBlock(stream, blockLength);
      var needed := (blockLength + 1) % WORD;
      if needed == 0 {
        return BufferWraps;
      }
      seen := seen + [blockLength];
      assert seen[..|seen| - 1] == old(seen);
      if bufSize < needed {
        bufSize := needed;
        Grow();
      }
      st := Receive(sock, blockLength);
      r := if st.Ok? then Got else Lost(st);
    }

    /** The rest of GetBlock, once the buffer is large enough. */
    method Receive(sock: Conn, blockLength: nat) returns (st: Status)
      requires blockLength < readBuf.Length
      modifies readBuf, sock`unread, sock`signals, sock`errors
      ensures st.Ok? ==>
                && blockLength <= |old(sock.unread)|
                && var payload := old(sock.unread)[..blockLength];
                && sock.unread == old(sock.unread)[blockLength..]
                && readBuf[..blockLength] == payload && readBuf[blockLength] == NUL
                && Text() == CString(payload)
      ensures st.ShortRead? ==> |old(sock.unread)| < blockLength && sock.unread == []
      ensures sock.errors == old(sock.errors) + if st.SysError? then 1 else 0
      ensures forall i :: blockLength < i < readBuf.Length ==> readBuf[i] == old(readBuf[i])
    {
      st := RecvAll(sock, readBuf, 0, blockLength);
      if st.Ok? {
        ghost var payload := readBuf[..blockLength];
        readBuf[blockLength] := NUL;
        assert readBuf[..] == payload + [NUL] + readBuf[blockLength + 1..];
        CStringStopsAtNul(payload, readBuf[blockLength + 1..]);
      }
    }
  }

  datatype Exit = Closed | Died(st: Status) | Overrun

  /** The receive loop of the C server. */
  method ServerC(sock: Conn, reader: BlockReader) returns (e: Exit, printed: seq<seq<byte>>)
    requires reader.Valid()
    modifies sock`unread, sock`signals, sock`errors, reader, reader.readBuf
    ensures reader.Valid()
    ensures e.Closed? ==> Serve(C, old(sock.unread)) == Session(printed, Stopped, sock.unread)
    ensures e.Died? ==> e.st.ShortRead? || e.st.SysError?
    ensures e.Died? && e.st.ShortRead? ==> Serve(C, old(sock.unread)) == Session(printed, CutOff, sock.unread)
    ensures e.Overrun? ==> Serve(C, old(sock.unread)) == Session(printed, Undefined, sock.unread)
    ensures printed <= Serve(C, old(sock.unread)).blocks
    ensures sock.errors == old(sock.errors) + if e == Died(SysError) then 1 else 0
  {
    ghost var stream := sock.unread;
    printed := [];
    PrecededTwice([], [], Serve(C, stream));
    while true
      invariant reader.Valid() && (reader.readBuf == old(reader.readBuf) || fresh(reader.readBuf))
      invariant Serve(C, stream) == Preceded(printed, Serve(C, sock.unread))
      invariant sock.errors == old(sock.errors)
      decreases |sock.unread|
    {
      var r := reader.GetBlock(sock);
      match r {
        case Lost(st) =>
          return Died(st), printed;
        case BufferWraps =>
          return Overrun, printed;
        case Got =>
      }
      if reader.readBuf[0] == NUL {
        return Closed, printed;
      }
      var block := reader.Text();
      assert block[0] == reader.readBuf[..][0];
      PrecededTwice(printed, [block], Serve(C, sock.unread));
      printed := printed + [block];
    }
  }

  /** A client's calls: PutBlock for each message, then for the empty one. */
  method Client(sock: Conn, messages: seq<seq<byte>>) returns (st: Status)
    modifies sock`sent, sock`signals, sock`errors, sock`cut
    ensures st.Ok? || st.SysError?
    ensures st.Ok? ==> sock.sent == old(sock.sent) + SessionBytes(messages)
    ensures old(sock.sent) <= sock.sent <= old(sock.sent) + SessionBytes(messages)
    ensures sock.errors == old(sock.errors) + if st.SysError? then 1 else 0
  {
    ghost var start := sock.sent;
    assert messages[..0] == [];
    for i := 0 to |messages|
      invariant sock.sent == start + Frames(messages[..i]) && sock.errors == old(sock.errors)
    {
      SentSoFar(start, messages, i);
      st := PutBlock(sock, messages[i]);
      if !st.Ok? {
        return;
      }
    }
    SentSoFar(start, messages, |messages|);
    st := PutBlock(sock, []);
  }

  /** The same with the C PutBlock, which ends the program on a short send. */
  method ClientC(sock: Conn, messages: seq<seq<byte>>) returns (st: Status)
    modifies sock`sent, sock`signals, sock`errors, sock`cut
    ensures st.Ok? || st.SysError?
    ensures st.Ok? ==> sock.sent == old(sock.sent) + SessionBytes(CStrings(messages))
    ensures old(sock.sent) <= sock.sent <= old(sock.sent) + SessionBytes(CStrings(messages))
    ensures sock.cut == old(sock.cut) + if st.SysError? then 1 else 0
  {
    ghost var start, strings := sock.sent, CStrings(messages);
    assert strings[..0] == [];
    for i := 0 to |messages|
      invariant sock.sent == start + Frames(strings[..i]) && sock.cut == old(sock.cut)
    {
      SentSoFar(start, strings, i);
      st := PutBlockC(sock, messages[i]);
      if !st.Ok? {
        return;
      }
    }
    SentSoFar(start, strings, |strings|);
    st := PutBlockC(sock, []);
  }

  /** What is sent before and with frame i is a prefix of the session. */
  lemma SentSoFar(start: seq<byte>, messages: seq<seq<byte>>, i: nat)
    requires i <= |messages|
    ensures start + Frames(messages[..i]) <= start + SessionBytes(messages)
    ensures i < |messages| ==>
              && start + Frames(messages[..i]) + Frame(messages[i]) == start + Frames(messages[..i + 1])
              && start + Frames(messages[..i + 1]) <= start + SessionBytes(messages)
    ensures i == |messages| ==> start + Frames(messages[..i]) + Frame([]) == start + SessionBytes(messages)
  {
    NextFrame(messages, i);
    if i < |messages| {
      Assoc(start, Frames(messages[..i]), Frame(messages[i]));
      Assoc(Frames(messages[..i]), Frame(messages[i]), Frames(messages[i + 1..]));
    } else {
      Assoc(start, Frames(messages), Frame([]));
    }
  }

  /** A whole C++ session over one connection: the server reads what the client wrote, all
      of it or what there is of it when the client fails. */
  method SessionOf(client: Conn, server: Conn, messages: seq<seq<byte>>)
    returns (sent: Status, received: Status, printed: seq<seq<byte>>)
    requires AllSendable(Cxx, messages) && client != server
    modifies client`sent, client`signals, client`errors, client`cut
    modifies server`unread, server`signals, server`errors
    ensures printed <= messages
    ensures client.errors == old(client.errors) && server.errors == old(server.errors) ==>
              sent.Ok? && received.Ok? && printed == messages && server.unread == []
  {
    ghost var before := client.sent;
    var n := |client.sent|;
    sent := Client(client, messages);
    server.unread := client.sent[n..];
    assert client.sent == before + server.unread && server.unread <= SessionBytes(messages);
    PartOfSession(Cxx, messages, server.unread);
    received, printed := Server(server);
  }

  /** The same in C. */
  method SessionOfC(client: Conn, server: Conn, reader: BlockReader, messages: seq<seq<byte>>)
    returns (sent: Status, received: Exit, printed: seq<seq<byte>>)
    requires AllSendable(C, messages) && client != server && reader.Valid()
    modifies client`sent, client`signals, client`errors, client`cut
    modifies server`unread, server`signals, server`errors, reader, reader.readBuf
    ensures reader.Valid() && printed <= messages && !received.Overrun?
    ensures client.cut == old(client.cut) && server.errors == old(server.errors) ==>
              sent.Ok? && received.Closed? && printed == messages && server.unread == []
  {
    ghost var before := client.sent;
    var n := |client.sent|;
    CStringsClean(messages);
    sent := ClientC(client, messages);
    server.unread := client.sent[n..];
    assert client.sent == before + server.unread && server.unread <= SessionBytes(messages);
    PartOfSession(C, messages, server.unread);
    received, printed := ServerC(server, reader);
  }
}
