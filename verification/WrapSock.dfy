// SendAll and RecvAll: the loops that hide partial transfers and interrupted calls. The C
// functions and the Socket methods run the same loop; err_sys and exceptions become results.
module WrapSock {
  import opened Bytes
  import opened Kernel

  datatype Status =
    | Ok
    | SysError                    // a system call failed, other than by interruption
    | ShortRead(received: nat)    // the peer closed before all the bytes had come

  method SendAll(sock: Conn, data: seq<byte>) returns (st: Status)
    modifies sock`sent, sock`signals, sock`errors, sock`cut
    ensures st.Ok? || st.SysError?
    ensures st.Ok? ==> sock.sent == old(sock.sent) + data
    ensures st.SysError? ==> exists k :: 0 <= k < |data| && sock.sent == old(sock.sent) + data[..k]
    ensures sock.errors == old(sock.errors) + if st.SysError? then 1 else 0
    ensures sock.signals <= old(sock.signals)
  {
    var ptr: nat := 0;
    var nleft: nat := |data|;
    while nleft > 0
      invariant ptr + nleft == |data|
      invariant sock.sent == old(sock.sent) + data[..ptr]
      invariant sock.signals <= old(sock.signals) && sock.errors == old(sock.errors)
      decreases nleft, sock.signals
    {
      var t := sock.Send(data[ptr..]);
      match t {
        case Interrupted =>
        case Failed =>
          return SysError;
        case Moved(n) =>
          if n == 0 {
            return SysError;
          }
          assert data[..ptr + n] == data[..ptr] + data[ptr..][..n];
          nleft := nleft - n;
          ptr := ptr + n;
      }
    }
    assert data[..ptr] == data;
    st := Ok;
  }

  /** Fills buf[off..off + len], whatever the sizes of the pieces the kernel delivers. */
  method RecvAll(sock: Conn, buf: array<byte>, off: nat, len: nat) returns (st: Status)
    requires off + len <= buf.Length
    modifies sock`unread, sock`signals, sock`errors, buf
    ensures st.Ok? ==>
              && len <= |old(sock.unread)|
              && buf[off..off + len] == old(sock.unread)[..len]
              && sock.unread == old(sock.unread)[len..]
    ensures st.ShortRead? ==> |old(sock.unread)| < len && st.received == |old(sock.unread)| && sock.unread == []
    ensures st.SysError? ==> exists k :: 0 <= k <= |old(sock.unread)| && k < len && sock.unread == old(sock.unread)[k..]
    ensures forall i :: 0 <= i < buf.Length && (i < off || off + len <= i) ==> buf[i] == old(buf[i])
    ensures sock.errors == old(sock.errors) + if st.SysError? then 1 else 0
    ensures sock.signals <= old(sock.signals)
  {
    ghost var stream := sock.unread;
    var ptr: nat := off;
    var nleft: nat := len;
    while nleft > 0
      invariant ptr + nleft == off + len && off <= ptr
      invariant ptr - off <= |stream|
      invariant sock.unread == stream[ptr - off..]
      invariant buf[off..ptr] == stream[..ptr - off]
      invariant forall i :: 0 <= i < buf.Length && (i < off || off + len <= i) ==> buf[i] == old(buf[i])
      invariant sock.signals <= old(sock.signals) && sock.errors == old(sock.errors)
      decreases nleft, sock.signals
    {
      ghost var done := buf[off..ptr];
      var t := sock.Read(buf, ptr, nleft);
      assert buf[off..ptr] == done;
      match t {
        case Interrupted =>
        case Failed =>
          return SysError;
        case Moved(n) =>
          if n == 0 {
            return ShortRead(len - nleft);
          }
          assert buf[off..ptr + n] == buf[off..ptr] + buf[ptr..ptr + n];
          assert stream[..ptr + n - off] == stream[..ptr - off] + stream[ptr - off..][..n];
          nleft := nleft - n;
          ptr := ptr + n;
      }
    }
    st := Ok;
  }
}
