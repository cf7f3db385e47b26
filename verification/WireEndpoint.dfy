/**
 * The two ends of the socket between qsub processes (src/cmds/qsub.c:4235-4720, 5796-5807, 6022-6033).
 * send and read may take any part of what they are given, fail, or meet a peer that is gone.
 */
module WireEndpoint {
  import opened WireCodec

  /** One direction of the stream socket: the bytes sent and not yet read. */
  class Socket {
    var stream: Bytes
    /** A read has failed. */
    var broken: bool
    /** A send has failed, or has taken nothing. */
    ghost var choked: bool

    constructor ()
      ensures stream == [] && !broken && !choked
    {
      stream, broken, choked := [], false, false;
    }

    /** send: takes some of the bytes, or fails. */
    method Send(buf: Bytes) returns (rc: int)
      modifies this
      ensures -1 <= rc <= |buf| && broken == old(broken)
      ensures stream == old(stream) + if rc < 0 then [] else buf[..rc]
      ensures choked <==> old(choked) || rc < 0 || (rc == 0 && buf != [])
    {
      rc :| -1 <= rc <= |buf|;
      choked := choked || rc < 0 || (rc == 0 && buf != []);
      stream := stream + if rc < 0 then [] else buf[..rc];
    }

    /** read: delivers some of the bytes that are there, nothing at the end of the stream, or fails. */
    method Read(max: nat) returns (rc: int, data: Bytes)
      modifies this`stream, this`broken
      ensures -1 <= rc <= max
      ensures if rc < 0 then broken && stream == old(stream)
              else broken == old(broken) && |data| == rc && old(stream) == data + stream
      ensures rc == 0 ==> max == 0 || old(stream) == []
    {
      var fault: bool := *;
      if fault {
        broken := true;
        return -1, [];
      }
      if max == 0 || stream == [] {
        assert stream == [] + stream;
        return 0, [];
      }
      rc :| 1 <= rc <= max && rc <= |stream|;
      data, stream := stream[..rc], stream[rc..];
    }
  }

  /** dosend: 0 when everything was sent; otherwise what was sent is not everything. */
  method DoSend(sock: Socket, buf: Bytes) returns (rc: int)
    modifies sock
    ensures rc == 0 || rc == -1
    ensures sock.broken == old(sock.broken) && sock.choked == (old(sock.choked) || rc == -1)
    ensures rc == 0 ==> sock.stream == old(sock.stream) + buf
    ensures rc == -1 ==> old(sock.stream) <= sock.stream <= old(sock.stream) + buf
    ensures rc == -1 && buf != [] ==> sock.stream < old(sock.stream) + buf
  {
    ghost var s0 := sock.stream;
    var bytes := 0;
    assert s0 + buf[..0] == s0;
    while true
      invariant 0 <= bytes <= |buf| && (bytes < |buf| || buf == [])
      invariant sock.stream == s0 + buf[..bytes] && sock.broken == old(sock.broken)
      invariant sock.choked == old(sock.choked)
      decreases |buf| - bytes
    {
      rc := sock.Send(buf[bytes..]);
      if rc == -1 {
        return;
      }
      assert s0 + buf[..bytes] + buf[bytes..][..rc] == s0 + buf[..bytes + rc];
      if rc == 0 {
        break;
      }
      bytes := bytes + rc;
      if bytes == |buf| {
        break;
      }
    }
    rc := if bytes != |buf| then -1 else 0;
    assert buf[..|buf|] == buf;
  }

  /** dorecv: 0 when all n bytes arrived; otherwise the socket failed or ended before them. */
  method DoRecv(sock: Socket, n: nat) returns (rc: int, data: Bytes)
    modifies sock`stream, sock`broken
    ensures rc == 0 || rc == -1
    ensures rc == 0 ==> |data| == n && old(sock.stream) == data + sock.stream && sock.broken == old(sock.broken)
    ensures rc == -1 ==> sock.broken || |old(sock.stream)| < n
  {
    ghost var s0 := sock.stream;
    data := [];
    assert s0 == data + sock.stream;
    while true
      invariant |data| < n || (n == 0 && data == [])
      invariant s0 == data + sock.stream && sock.broken == old(sock.broken)
      decreases n - |data|
    {
      var part;
      rc, part := sock.Read(n - |data|);
      if rc == -1 {
        return;
      }
      if rc == 0 {
        assert part == [] && [] + sock.stream == sock.stream;
        break;
      }
      assert data + (part + sock.stream) == (data + part) + sock.stream;
      data := data + part;
      if |data| == n {
        break;
      }
    }
    rc := if |data| != n then -1 else 0;
  }

  // ----- strings -----

  method SendString(sock: Socket, s: Bytes) returns (rc: int)
    requires |s| < INT_LIMIT - 1
    modifies sock
    ensures rc == 0 || rc == -1
    ensures sock.broken == old(sock.broken) && sock.choked == (old(sock.choked) || rc == -1)
    ensures rc == 0 ==> sock.stream == old(sock.stream) + EncodeString(s)
    ensures rc == -1 ==> old(sock.stream) <= sock.stream < old(sock.stream) + EncodeString(s)
  {
    hide EncodeInt;
    ghost var s0, n := sock.stream, EncodeInt(|s| + 1);
    assert s0 + EncodeString(s) == s0 + n + (s + [0]);
    rc := DoSend(sock, EncodeInt(|s| + 1));
    if rc == 0 {
      rc := DoSend(sock, s + [0]);
    }
  }

  /** s is a stream that starts with all or a part of x, and is a part of x + t. */
  lemma {:induction false} TakeFront(s: Bytes, x: Bytes, t: Bytes, data: Bytes, rest: Bytes)
    requires s <= x + t && s == data + rest && |data| == |x|
    ensures data == x && rest <= t
  {
    assert data == s[..|x|] == (x + t)[..|x|] == x;
    assert rest == s[|x|..];
    assert rest == (x + t)[|x|..|s|];
    assert t == (x + t)[|x|..];
  }

  /**
   * recv_string from a peer that is sending s and then t, and that may be gone at any byte: the string
   * arrives, or the socket failed, or the peer did not send all of it.
   */
  method RecvString(sock: Socket, ghost s: Bytes, ghost t: Bytes) returns (rc: int, str: Bytes)
    requires Text(s) && |s| < INT_LIMIT - 1
    requires sock.stream <= EncodeString(s) + t
    modifies sock`stream, sock`broken
    ensures rc == 0 || rc == -1
    ensures rc == 0 ==> str == s && sock.stream <= t && sock.broken == old(sock.broken)
                        && old(sock.stream) == EncodeString(s) + sock.stream
    ensures rc == -1 ==> sock.broken || |old(sock.stream)| < |EncodeString(s)|
  {
    hide EncodeInt, DecodeInt, CString;
    str := [];
    ghost var s0, n := sock.stream, EncodeInt(|s| + 1);
    assert EncodeString(s) + t == n + (s + [0] + t);
    var data;
    rc, data := DoRecv(sock, 4);
    if rc == 0 {
      TakeFront(s0, n, s + [0] + t, data, sock.stream);
      IntRoundTrip(|s| + 1);
      ghost var s1 := sock.stream;
      rc, data := DoRecv(sock, DecodeInt(data));
      if rc == 0 {
        TakeFront(s1, s + [0], t, data, sock.stream);
        CStringAt(s, []);
        assert s + [0] + [] == s + [0];
        str := CString(data);
        assert n + (s + [0] + sock.stream) == EncodeString(s) + sock.stream;
      }
    }
  }
}
