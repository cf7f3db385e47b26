/**
 * Sending and receiving a whole request through the growing buffer daemon_buf
 * (src/cmds/qsub.c:4235-4257, 4431-4720, 5796-5807, 6022-6033).
 */
module WireRequest {
  import opened CText
  import opened WireCodec
  import opened WireEndpoint

  // ----- one attribute inside a received block -----

  /** The three lengths in front of an entry. */
  function Lengths(a: Attr): Bytes {
    EncodeInt(|a.name| + 1) + EncodeInt(a.LenR()) + EncodeInt(|a.value| + 1)
  }

  lemma {:induction false} LengthsAt(a: Attr, t: Bytes)
    requires a.Size() < INT_LIMIT
    ensures var b := EncodeAttr(a) + t;
            && |b| >= 12 && b[12..] == Strings(a) + t
            && DecodeInt(b[0..4]) == |a.name| + 1
            && DecodeInt(b[4..8]) == a.LenR()
            && DecodeInt(b[8..12]) == |a.value| + 1
  {
    hide EncodeInt, DecodeInt;
    var x, y, z := EncodeInt(|a.name| + 1), EncodeInt(a.LenR()), EncodeInt(|a.value| + 1);
    var b := EncodeAttr(a) + t;
    assert b == x + y + z + Strings(a) + t;
    assert b[0..4] == x && b[4..8] == y && b[8..12] == z;
    IntRoundTrip(|a.name| + 1);
    IntRoundTrip(a.LenR());
    IntRoundTrip(|a.value| + 1);
  }

  lemma {:induction false} StringsAt(a: Attr, t: Bytes)
    requires a.Valid()
    ensures var b := Strings(a) + t;
            var n := |a.name| + 1;
            && |Strings(a)| == n + a.LenR() + |a.value| + 1
            && CString(b) == a.name
            && (a.resource.Some? ==> CString(b[n..]) == a.resource.value)
            && CString(b[n + a.LenR()..]) == a.value
  {
    hide CString;
    var b, n := Strings(a) + t, |a.name| + 1;
    var r := if a.resource.Some? then a.resource.value + [0] else [];
    var v := a.value + [0] + t;
    assert b == a.name + [0] + (r + v);
    CStringAt(a.name, r + v);
    assert b[n..] == r + v;
    assert b[n + a.LenR()..] == v;
    CStringAt(a.value, t);
    if a.resource.Some? {
      assert b[n..] == a.resource.value + [0] + v;
      CStringAt(a.resource.value, v);
    }
  }

  lemma {:induction false} SizeOfPart(attrs: seq<Attr>, i: nat)
    requires i < |attrs|
    ensures SizeOf(attrs[..i]) + attrs[i].Size() <= SizeOf(attrs)
    ensures SizeOf(attrs[i..]) == attrs[i].Size() + SizeOf(attrs[i + 1..])
  {
    assert attrs == attrs[..i] + attrs[i..];
    SizeOfAppend(attrs[..i], attrs[i..]);
    assert attrs[i..][1..] == attrs[i + 1..];
  }

  /** A qsub process at its end of the socket. */
  class Endpoint {
    /** daemon_buf; its length is daemon_buflen. */
    var daemonBuf: array<byte>
    /** realloc has failed. */
    ghost var outOfMemory: bool

    constructor ()
      ensures daemonBuf.Length == 0 && fresh(daemonBuf) && !outOfMemory
    {
      daemonBuf, outOfMemory := new byte[0], false;
    }

    /** resize_daemon_buf: room for lenreq bytes behind the first used ones, which stay; or out of memory. */
    method ResizeDaemonBuf(used: nat, lenreq: nat) returns (rc: int)
      requires used <= daemonBuf.Length
      modifies this`daemonBuf, this`outOfMemory
      ensures rc == 0 || rc == -1
      ensures daemonBuf == old(daemonBuf) || fresh(daemonBuf)
      ensures outOfMemory == (old(outOfMemory) || rc == -1)
      ensures rc == 0 ==> used + lenreq <= daemonBuf.Length && daemonBuf[..used] == old(daemonBuf[..used])
    {
      if daemonBuf.Length < used + lenreq {
        var fails: bool := *;
        if fails {
          daemonBuf, outOfMemory := new byte[0], true;
          return -1;
        }
        var p := new byte[used + lenreq + 1000];
        forall k | 0 <= k < daemonBuf.Length {
          p[k] := daemonBuf[k];
        }
        daemonBuf := p;
      }
      rc := 0;
    }

    /** memmove of data to offset p; returns the offset behind it. */
    method Put(p: nat, data: Bytes) returns (next: nat)
      requires p + |data| <= daemonBuf.Length
      modifies daemonBuf
      ensures next == p + |data|
      ensures daemonBuf[..next] == old(daemonBuf[..p]) + data
    {
      forall k | 0 <= k < |data| {
        daemonBuf[p + k] := data[k];
      }
      next := p + |data|;
    }

    /** The three lengths. */
    method PutLengths(bufused: nat, a: Attr) returns (p: nat)
      requires a.Size() < INT_LIMIT && bufused + 12 <= daemonBuf.Length
      modifies daemonBuf
      ensures p == bufused + 12
      ensures daemonBuf[..p] == old(daemonBuf[..bufused]) + Lengths(a)
    {
      hide EncodeInt;
      ghost var b0 := daemonBuf[..bufused];
      p := Put(bufused, EncodeInt(|a.name| + 1));
      p := Put(p, EncodeInt(a.LenR()));
      p := Put(p, EncodeInt(|a.value| + 1));
      assert daemonBuf[..p] == b0 + Lengths(a);
    }

    /** Writes one entry behind the bufused bytes already there. */
    method PutAttr(bufused: nat, a: Attr) returns (p: nat)
      requires a.Size() < INT_LIMIT && bufused + a.Size() <= daemonBuf.Length
      modifies daemonBuf
      ensures p == bufused + a.Size()
      ensures daemonBuf[..p] == old(daemonBuf[..bufused]) + EncodeAttr(a)
    {
      ghost var b0 := daemonBuf[..bufused];
      ghost var b1 := b0 + Lengths(a);
      hide Lengths, EncodeInt;
      p := PutLengths(bufused, a);
      p := Put(p, a.name + [0]);
      ghost var b2 := b1 + (a.name + [0]);
      assert daemonBuf[..p] == b2;
      if a.LenR() > 0 {
        p := Put(p, a.resource.value + [0]);
      }
      ghost var r := if a.resource.Some? then a.resource.value + [0] else [];
      assert daemonBuf[..p] == b2 + r;
      p := Put(p, a.value + [0]);
      WholeEntry(a, b0);
    }

    method SendAttrl(sock: Socket, attrs: seq<Attr>) returns (rc: int)
      requires SizeOf(attrs) < INT_LIMIT
      modifies this, daemonBuf, sock
      ensures rc == 0 || rc == -1
      ensures daemonBuf == old(daemonBuf) || fresh(daemonBuf)
      ensures sock.broken == old(sock.broken)
      ensures rc == 0 ==> sock.stream == old(sock.stream) + EncodeAttrList(attrs)
      ensures rc == -1 ==> old(sock.stream) <= sock.stream <= old(sock.stream) + EncodeAttrList(attrs)
      ensures rc == -1 ==> sock.choked || outOfMemory
    {
      hide EncodeInt, EncodeAttrs, EncodeAttr, SizeOf;
      ghost var s0 := sock.stream;
      var bufused, i := 0, 0;
      EmptyAttrs(daemonBuf[..0], attrs);
      while i < |attrs|
        invariant 0 <= i <= |attrs| && 0 <= bufused <= daemonBuf.Length
        invariant daemonBuf == old(daemonBuf) || fresh(daemonBuf)
        invariant sock.stream == s0 && sock.broken == old(sock.broken)
        invariant bufused == SizeOf(attrs[..i]) <= SizeOf(attrs)
        invariant daemonBuf[..bufused] == EncodeAttrs(attrs[..i])
      {
        var a := attrs[i];
        SizeOfPart(attrs, i);
        rc := ResizeDaemonBuf(bufused, a.Size());
        if rc != 0 {
          return;
        }
        EncodeAttrsAppend(attrs[..i], a);
        assert attrs[..i] + [a] == attrs[..i + 1];
        bufused := PutAttr(bufused, a);
        i := i + 1;
      }
      assert attrs[..i] == attrs;
      rc := DoSend(sock, EncodeInt(bufused));
      if rc == 0 {
        rc := DoSend(sock, daemonBuf[..bufused]);
        assert s0 + EncodeAttrList(attrs) == s0 + EncodeInt(bufused) + EncodeAttrs(attrs);
      } else {
        assert s0 + EncodeAttrList(attrs) == s0 + EncodeInt(bufused) + EncodeAttrs(attrs);
      }
    }

    /** The body of the loop of recv_attrl: the entry a stands at p, with t behind it. */
    method ReadEntry(p: nat, recvlen: nat, hostvar: Option<Bytes>, ghost a: Attr, ghost t: Bytes)
        returns (next: Attr, p': nat)
      requires a.Valid() && a.Size() < INT_LIMIT
      requires p <= recvlen <= daemonBuf.Length && daemonBuf[p..recvlen] == EncodeAttr(a) + t
      ensures next == ArrivedAttr(a, hostvar)
      ensures p' == p + a.Size() <= recvlen && daemonBuf[p'..recvlen] == t
    {
      hide EncodeInt, DecodeInt, CString, Strings, EncodeAttr;
      LengthsAt(a, t);
      StringsAt(a, t);
      var b := daemonBuf[p..recvlen];
      var lenN, lenR, lenV := DecodeInt(b[0..4]), DecodeInt(b[4..8]), DecodeInt(b[8..12]);
      b := b[12..];
      if lenR > 0 {
        next := Attr(CString(b), Some(CString(b[lenN..])), CString(b[lenN + lenR..]));
      } else {
        next := Attr(CString(b), None, CString(b[lenN..]));
        if next.name == VARIABLE_LIST && hostvar.Some? {
          next := next.(value := next.value + hostvar.value);
        }
      }
      p' := p + 12 + lenN + lenR + lenV;
      assert daemonBuf[p'..recvlen] == daemonBuf[p..recvlen][a.Size()..];
    }

    /** The loop of recv_attrl over a block that holds exactly the entries attrs. */
    method ParseBlock(recvlen: nat, ghost attrs: seq<Attr>, hostvar: Option<Bytes>) returns (attr: seq<Attr>)
      requires SizeOf(attrs) < INT_LIMIT && forall a <- attrs :: a.Valid()
      requires recvlen <= daemonBuf.Length && daemonBuf[..recvlen] == EncodeAttrs(attrs)
      ensures attr == ArrivedAttrs(attrs, hostvar) && |attr| == |attrs|
      ensures forall i :: 0 <= i < |attrs| ==>
                attr[i] ==
                if attrs[i].name == VARIABLE_LIST && attrs[i].resource.None?
                then Attr(VARIABLE_LIST, None, attrs[i].value + hostvar.GetOr([]))
                else attrs[i]
    {
      ArrivedAre(attrs, hostvar);
      hide EncodeAttr, ArrivedAttr;
      attr := [];
      var p: nat := 0;
      ghost var left := attrs;
      assert daemonBuf[0..recvlen] == daemonBuf[..recvlen];
      assert [] + ArrivedAttrs(attrs, hostvar) == ArrivedAttrs(attrs, hostvar);
      while p < recvlen
        invariant p <= recvlen
        invariant (forall a <- left :: a.Valid()) && SizeOf(left) < INT_LIMIT
        invariant daemonBuf[p..recvlen] == EncodeAttrs(left)
        invariant attr + ArrivedAttrs(left, hostvar) == ArrivedAttrs(attrs, hostvar)
        decreases recvlen - p
      {
        assert left != [] && left[0] in left;
        var next;
        next, p := ReadEntry(p, recvlen, hostvar, left[0], EncodeAttrs(left[1..]));
        attr := attr + [next];
        left := left[1..];
      }
      assert SizeOf(left) == 0;
    }

    /** recv_attrl from a peer that is sending attrs and then t, and that may be gone at any byte. */
    method RecvAttrl(sock: Socket, ghost attrs: seq<Attr>, ghost t: Bytes, hostvar: Option<Bytes>)
        returns (rc: int, attr: seq<Attr>)
      requires SizeOf(attrs) < INT_LIMIT && forall a <- attrs :: a.Valid()
      requires sock.stream <= EncodeAttrList(attrs) + t
      modifies this, daemonBuf, sock`stream, sock`broken
      ensures daemonBuf == old(daemonBuf) || fresh(daemonBuf)
      ensures rc == 0 ==> attr == ArrivedAttrs(attrs, hostvar) && sock.stream <= t && sock.broken == old(sock.broken)
                          && old(sock.stream) == EncodeAttrList(attrs) + sock.stream
      ensures rc == -1 ==> sock.broken || outOfMemory || |old(sock.stream)| < |EncodeAttrList(attrs)|
      ensures rc == 0 || rc == -1
    {
      hide EncodeInt, DecodeInt, EncodeAttrs, SizeOf;
      attr := [];
      ghost var s0, n, body := sock.stream, EncodeInt(SizeOf(attrs)), EncodeAttrs(attrs);
      assert EncodeAttrList(attrs) + t == n + (body + t);
      var data;
      rc, data := DoRecv(sock, 4);
      if rc != 0 {
        return;
      }
      TakeFront(s0, n, body + t, data, sock.stream);
      IntRoundTrip(SizeOf(attrs));
      var recvlen := DecodeInt(data);
      rc := ResizeDaemonBuf(0, recvlen);
      if rc != 0 {
        return;
      }
      ghost var s1 := sock.stream;
      rc, data := DoRecv(sock, recvlen);
      if rc != 0 {
        return;
      }
      TakeFront(s1, body, t, data, sock.stream);
      var end := Put(0, data);
      assert daemonBuf[..end] == body;
      attr := ParseBlock(recvlen, attrs, hostvar);
      assert n + (body + sock.stream) == EncodeAttrList(attrs) + sock.stream;
    }

    /** recv_dyn_string: recv_string into a new string, by way of daemon_buf. */
    method RecvDynString(sock: Socket, ghost s: Bytes, ghost t: Bytes) returns (rc: int, str: Bytes)
      requires Text(s) && |s| < INT_LIMIT - 1
      requires sock.stream <= EncodeString(s) + t
      modifies this, daemonBuf, sock`stream, sock`broken
      ensures rc == 0 || rc == -1
      ensures daemonBuf == old(daemonBuf) || fresh(daemonBuf)
      ensures rc == 0 ==> str == s && sock.stream <= t && sock.broken == old(sock.broken)
                          && old(sock.stream) == EncodeString(s) + sock.stream
      ensures rc == -1 ==> sock.broken || outOfMemory || |old(sock.stream)| < |EncodeString(s)|
    {
      hide EncodeInt, DecodeInt, CString;
      str := [];
      ghost var s0, n := sock.stream, EncodeInt(|s| + 1);
      assert EncodeString(s) + t == n + (s + [0] + t);
      var data;
      rc, data := DoRecv(sock, 4);
      if rc != 0 {
        return;
      }
      TakeFront(s0, n, s + [0] + t, data, sock.stream);
      IntRoundTrip(|s| + 1);
      var recvlen := DecodeInt(data);
      rc := ResizeDaemonBuf(0, recvlen);
      if rc != 0 {
        return;
      }
      ghost var s1 := sock.stream;
      rc, data := DoRecv(sock, recvlen);
      if rc == 0 {
        TakeFront(s1, s + [0], t, data, sock.stream);
        var end := Put(0, data);
        CStringAt(s, []);
        assert s + [0] + [] == s + [0] == daemonBuf[..end];
        str := CString(daemonBuf[..end]);
        assert n + (s + [0] + sock.stream) == EncodeString(s) + sock.stream;
      }
    }

    /** send_opts: the registers as text. */
    method SendOpts(sock: Socket, opts: seq<nat>) returns (rc: int)
      requires |FormatOpts(opts)| < 100
      modifies this, daemonBuf, sock
      ensures rc == 0 || rc == -1
      ensures daemonBuf == old(daemonBuf) || fresh(daemonBuf)
      ensures sock.broken == old(sock.broken)
      ensures rc == 0 ==> sock.stream == old(sock.stream) + EncodeString(FormatOpts(opts))
      ensures rc == -1 ==> old(sock.stream) <= sock.stream < old(sock.stream) + EncodeString(FormatOpts(opts))
      ensures rc == -1 ==> sock.choked || outOfMemory
    {
      rc := ResizeDaemonBuf(0, 100);
      if rc != 0 {
        return;
      }
      var text := FormatOpts(opts) + [0];
      var end := Put(0, text);
      FormatText(opts);
      assert daemonBuf[..end] == FormatOpts(opts) + [0];
      CStringAt(FormatOpts(opts), []);
      assert FormatOpts(opts) + [0] + [] == daemonBuf[..end];
      rc := SendString(sock, CString(daemonBuf[..end]));
    }

    /** recv_opts: sscanf on the text received. */
    method RecvOpts(sock: Socket, ghost opts: seq<nat>, ghost t: Bytes) returns (rc: int, got: seq<nat>)
      requires |opts| == 35 && |FormatOpts(opts)| < 100
      requires sock.stream <= EncodeString(FormatOpts(opts)) + t
      modifies this, daemonBuf, sock`stream, sock`broken
      ensures rc == 0 || rc == -1
      ensures daemonBuf == old(daemonBuf) || fresh(daemonBuf)
      ensures rc == 0 ==> got == opts && sock.stream <= t && sock.broken == old(sock.broken)
                          && old(sock.stream) == EncodeString(FormatOpts(opts)) + sock.stream
      ensures rc == -1 ==> sock.broken || outOfMemory || |old(sock.stream)| < |EncodeString(FormatOpts(opts))|
    {
      hide EncodeInt, FormatOpts;
      got := [];
      rc := ResizeDaemonBuf(0, 100);
      if rc != 0 {
        return;
      }
      FormatText(opts);
      var text;
      rc, text := RecvString(sock, FormatOpts(opts), t);
      if rc == 0 {
        var end := Put(0, text);
        OptsRoundTrip(opts, false);
        assert [] + FormatOpts(opts) == FormatOpts(opts) == daemonBuf[..end];
        got := ReadOpts(daemonBuf[..end], 35);
      }
    }

    /** The sends of daemon_submit: ok exactly when the whole request is on the socket. */
    method SendRequest(sock: Socket, r: Request) returns (ok: bool)
      requires r.Valid()
      modifies this, daemonBuf, sock
      ensures sock.broken == old(sock.broken)
      ensures if ok then sock.stream == old(sock.stream) + EncodeRequest(r)
              else old(sock.stream) <= sock.stream < old(sock.stream) + EncodeRequest(r)
      ensures !ok ==> sock.choked || outOfMemory
    {
      ghost var s0 := sock.stream;
      FirstUpto(r);
      hide *;
      var rc := SendAttrl(sock, r.attrs);
      ok := rc == 0;
      assert Progress(sock.stream, s0, Upto(r, 0), ok) by {
        ProgressFrom(sock.stream, s0, Upto(r, 0), ok);
      }
      ok := SendStrings(sock, r, ok, s0);
      ok := SendLast(sock, r, ok, s0);
    }

    /** The seven strings, in order; the first failure ends the sending. */
    method SendStrings(sock: Socket, r: Request, ok0: bool, ghost s0: Bytes) returns (ok: bool)
      requires r.Valid() && Progress(sock.stream, s0, Upto(r, 0), ok0) && (ok0 || sock.choked || outOfMemory)
      modifies sock
      ensures sock.broken == old(sock.broken) && (ok || sock.choked || outOfMemory)
      ensures Progress(sock.stream, s0, Upto(r, 7), ok)
    {
      StringOrder(r);
      hide *;
      ok := SendNext(sock, ok0, r.destination, r, 0, s0);
      ok := SendNext(sock, ok, r.script, r, 1, s0);
      ok := SendNext(sock, ok, r.credName, r, 2, s0);
      ok := SendNext(sock, ok, r.vValue.GetOr([]), r, 3, s0);
      ok := SendNext(sock, ok, r.basicEnv, r, 4, s0);
      ok := SendNext(sock, ok, r.qsubEnv.GetOr([]), r, 5, s0);
      ok := SendNext(sock, ok, r.cwd, r, 6, s0);
    }

    method SendLast(sock: Socket, r: Request, ok0: bool, ghost s0: Bytes) returns (ok: bool)
      requires r.Valid() && Progress(sock.stream, s0, Upto(r, 7), ok0) && (ok0 || sock.choked || outOfMemory)
      modifies this, daemonBuf, sock
      ensures sock.broken == old(sock.broken) && (ok || sock.choked || outOfMemory)
      ensures if ok then sock.stream == s0 + EncodeRequest(r) else s0 <= sock.stream < s0 + EncodeRequest(r)
    {
      LastUpto(r);
      LastItem(s0, Upto(r, 7), EncodeString(FormatOpts(r.opts)), sock.stream, ok0);
      hide *;
      ok := ok0;
      if ok {
        var rc := SendOpts(sock, r.opts);
        ok := rc == 0;
      }
    }

    /** One string of the chain of receives, when all before it arrived. dyn chooses recv_dyn_string. */
    method RecvNext(sock: Socket, ok0: bool, dyn: bool, ghost r: Request, ghost k: nat, ghost s0: Bytes)
        returns (ok: bool, str: Bytes)
      requires r.Valid() && k < 7 && |r.Strings()| == 7
      requires if ok0 then Got(s0, r, k, sock.stream) else Cut(s0, r, sock.broken || outOfMemory)
      modifies this, daemonBuf, sock`stream, sock`broken
      ensures daemonBuf == old(daemonBuf) || fresh(daemonBuf)
      ensures if ok then ok0 && str == r.Strings()[k] && Got(s0, r, k + 1, sock.stream)
              else Cut(s0, r, sock.broken || outOfMemory)
    {
      ok, str := ok0, [];
      if ok {
        ghost var s, before := r.Strings()[k], sock.stream;
        UptoStep(r, k);
        GotStep(s0, r, k, before);
        hide EncodeString, EncodeRequest, Upto, Rest, Got;
        var rc;
        if dyn {
          rc, str := RecvDynString(sock, s, Rest(r, k + 1));
        } else {
          rc, str := RecvString(sock, s, Rest(r, k + 1));
        }
        ok := rc == 0;
        if ok {
          GotNext(s0, r, k, before, sock.stream);
        }
      }
    }

    /** The receives of do_daemon_stuff from a foreground that is sending r and may be gone at any byte. */
    method ReceiveRequest(sock: Socket, ghost r: Request, hostvar: Option<Bytes>) returns (ok: bool, got: Request)
      requires r.Valid() && sock.stream <= EncodeRequest(r)
      modifies this, daemonBuf, sock`stream, sock`broken
      ensures ok ==> got == Arrived(r, hostvar) && old(sock.stream) == EncodeRequest(r)
      ensures ok ==>
                |got.attrs| == |r.attrs| &&
                forall i :: 0 <= i < |r.attrs| ==>
                  got.attrs[i] ==
                  if r.attrs[i].name == VARIABLE_LIST && r.attrs[i].resource.None?
                  then Attr(VARIABLE_LIST, None, r.attrs[i].value + hostvar.GetOr([]))
                  else r.attrs[i]
      ensures ok ==>
                got.destination == r.destination && got.script == r.script && got.credName == r.credName &&
                got.vValue == Some(r.vValue.GetOr([])) && got.basicEnv == r.basicEnv &&
                got.qsubEnv == Some(r.qsubEnv.GetOr([])) && got.cwd == r.cwd && got.opts == r.opts
      ensures !ok ==> sock.broken || outOfMemory || old(sock.stream) != EncodeRequest(r)
    {
      ghost var s0 := sock.stream;
      var attrs, ss, opts;
      ok, attrs := RecvFirst(sock, r, hostvar);
      ok, ss := RecvStrings(sock, ok, r, s0);
      ok, opts := RecvLast(sock, ok, r, s0);
      CutIs(s0, r, ok, sock.broken || outOfMemory);
      ArrivedParts(r, hostvar);
      ArrivedAre(r.attrs, hostvar);
      hide *;
      got := Request(attrs, ss.0, ss.1, ss.2, Some(ss.3), ss.4, Some(ss.5), ss.6, opts);
    }

    method RecvFirst(sock: Socket, ghost r: Request, hostvar: Option<Bytes>) returns (ok: bool, attrs: seq<Attr>)
      requires r.Valid() && sock.stream <= EncodeRequest(r)
      modifies this, daemonBuf, sock`stream, sock`broken
      ensures daemonBuf == old(daemonBuf) || fresh(daemonBuf)
      ensures ok ==> attrs == ArrivedAttrs(r.attrs, hostvar)
      ensures if ok then Got(old(sock.stream), r, 0, sock.stream)
              else Cut(old(sock.stream), r, sock.broken || outOfMemory)
    {
      ghost var s0 := sock.stream;
      GotFirst(s0, r);
      hide *;
      var rc;
      rc, attrs := RecvAttrl(sock, r.attrs, Rest(r, 0), hostvar);
      ok := rc == 0;
      GotAttrs(s0, r, sock.stream, ok, sock.broken || outOfMemory);
    }

    /** The seven strings in the order in which they are sent. */
    method RecvStrings(sock: Socket, ok0: bool, ghost r: Request, ghost s0: Bytes)
        returns (ok: bool, ss: (Bytes, Bytes, Bytes, Bytes, Bytes, Bytes, Bytes))
      requires r.Valid()
      requires if ok0 then Got(s0, r, 0, sock.stream) else Cut(s0, r, sock.broken || outOfMemory)
      modifies this, daemonBuf, sock`stream, sock`broken
      ensures daemonBuf == old(daemonBuf) || fresh(daemonBuf)
      ensures ok ==> ok0 && ss == (r.destination, r.script, r.credName, r.vValue.GetOr([]), r.basicEnv,
                                   r.qsubEnv.GetOr([]), r.cwd)
      ensures if ok then Got(s0, r, 7, sock.stream) else Cut(s0, r, sock.broken || outOfMemory)
    {
      StringOrder(r);
      hide *;
      var destination, script, credName, vValue, basicEnv, qsubEnv, cwd;
      ok, destination := RecvNext(sock, ok0, false, r, 0, s0);
      ok, script := RecvNext(sock, ok, false, r, 1, s0);
      ok, credName := RecvNext(sock, ok, false, r, 2, s0);
      ok, vValue := RecvNext(sock, ok, true, r, 3, s0);
      ok, basicEnv := RecvNext(sock, ok, true, r, 4, s0);
      ok, qsubEnv := RecvNext(sock, ok, true, r, 5, s0);
      ok, cwd := RecvNext(sock, ok, false, r, 6, s0);
      ss := (destination, script, credName, vValue, basicEnv, qsubEnv, cwd);
    }

    method RecvLast(sock: Socket, ok0: bool, ghost r: Request, ghost s0: Bytes) returns (ok: bool, opts: seq<nat>)
      requires r.Valid()
      requires if ok0 then Got(s0, r, 7, sock.stream) else Cut(s0, r, sock.broken || outOfMemory)
      modifies this, daemonBuf, sock`stream, sock`broken
      ensures if ok then ok0 && opts == r.opts && s0 == EncodeRequest(r)
              else Cut(s0, r, sock.broken || outOfMemory)
    {
      ok, opts := ok0, [];
      if ok {
        LastUpto(r);
        GotLast(s0, r, sock.stream);
        hide EncodeString, EncodeRequest, Upto, Rest, FormatOpts;
        var rc;
        rc, opts := RecvOpts(sock, r.opts, []);
        ok := rc == 0;
        assert ok ==> sock.stream == [];
        assert EncodeString(FormatOpts(r.opts)) + [] == EncodeString(FormatOpts(r.opts));
      }
    }
  }

  /**
   * A request goes over the socket. Whatever the splits: if the daemon has received it, the foreground has
   * sent all of it and the daemon holds the same request; and if not, something failed.
   */
  method Transfer(fg: Endpoint, bg: Endpoint, sock: Socket, r: Request, hostvar: Option<Bytes>)
      returns (sent: bool, received: bool, got: Request)
    requires r.Valid() && sock.stream == [] && fg != bg && fg.daemonBuf != bg.daemonBuf
    modifies fg, fg.daemonBuf, bg, bg.daemonBuf, sock
    ensures received ==>
              sent && |got.attrs| == |r.attrs| &&
              forall i :: 0 <= i < |r.attrs| ==>
                got.attrs[i] ==
                if r.attrs[i].name == VARIABLE_LIST && r.attrs[i].resource.None?
                then Attr(VARIABLE_LIST, None, r.attrs[i].value + hostvar.GetOr([]))
                else r.attrs[i]
    ensures received ==>
              got.destination == r.destination && got.script == r.script && got.credName == r.credName &&
              got.vValue == Some(r.vValue.GetOr([])) && got.basicEnv == r.basicEnv &&
              got.qsubEnv == Some(r.qsubEnv.GetOr([])) && got.cwd == r.cwd && got.opts == r.opts
    ensures !sent ==> sock.choked || fg.outOfMemory
    ensures sent && !received ==> sock.broken || bg.outOfMemory
  {
    ghost var text := EncodeRequest(r);
    assert [] + text == text;
    hide *;
    sent := fg.SendRequest(sock, r);
    received, got := bg.ReceiveRequest(sock, r, hostvar);
  }

  /** What follows the attribute list and the first k strings. */
  ghost function Rest(r: Request, k: nat): Bytes
    requires k <= 7
  {
    EncodeStrings(r.Strings()[k..]) + EncodeString(FormatOpts(r.opts))
  }

  /** The stream s0 began with the attribute list and k strings, and s is what was behind them. */
  ghost predicate Got(s0: Bytes, r: Request, k: nat, s: Bytes)
    requires k <= 7
  {
    s0 == Upto(r, k) + s && s <= Rest(r, k)
  }

  /** A receive failed: through a fault or because s0 is not the whole request. */
  ghost predicate Cut(s0: Bytes, r: Request, fault: bool) {
    fault || |s0| < |EncodeRequest(r)|
  }

  lemma {:induction false} RequestSplit(r: Request, k: nat)
    requires k <= 7
    ensures EncodeRequest(r) == Upto(r, k) + Rest(r, k)
    decreases 7 - k
  {
    hide EncodeString, EncodeAttrList;
    var ss := r.Strings();
    EncodeStringsConcat(ss[..k], ss[k..]);
    assert ss == ss[..k] + ss[k..];
  }

  lemma {:induction false} EncodeStringsConcat(x: seq<Bytes>, y: seq<Bytes>)
    ensures EncodeStrings(x + y) == EncodeStrings(x) + EncodeStrings(y)
  {
    hide EncodeString;
    if x == [] {
      assert x + y == y;
    } else {
      assert (x + y)[1..] == x[1..] + y;
      EncodeStringsConcat(x[1..], y);
    }
  }

  lemma {:induction false} GotFirst(s0: Bytes, r: Request)
    requires r.Valid() && s0 <= EncodeRequest(r)
    ensures s0 <= EncodeAttrList(r.attrs) + Rest(r, 0)
    ensures SizeOf(r.attrs) < INT_LIMIT && forall a <- r.attrs :: a.Valid()
  {
    hide EncodeAttrList, EncodeStrings, EncodeString;
    RequestSplit(r, 0);
    FirstUpto(r);
  }

  lemma {:induction false} GotAttrs(s0: Bytes, r: Request, s: Bytes, ok: bool, fault: bool)
    requires r.Valid()
    requires ok ==> s <= Rest(r, 0) && s0 == EncodeAttrList(r.attrs) + s
    requires !ok ==> fault || |s0| < |EncodeAttrList(r.attrs)|
    ensures if ok then Got(s0, r, 0, s) else Cut(s0, r, fault)
  {
    hide EncodeAttrList, EncodeStrings, EncodeString;
    RequestSplit(r, 0);
    FirstUpto(r);
  }

  /** The next string stands at the front; without all of it the request is cut. */
  lemma {:induction false} GotStep(s0: Bytes, r: Request, k: nat, s: Bytes)
    requires r.Valid() && k < 7 && |r.Strings()| == 7 && Got(s0, r, k, s)
    ensures s <= EncodeString(r.Strings()[k]) + Rest(r, k + 1)
    ensures |s| < |EncodeString(r.Strings()[k])| ==> |s0| < |EncodeRequest(r)|
  {
    RequestSplit(r, k);
    RestStep(r, k);
    hide EncodeString, EncodeRequest, Upto, Rest;
  }

  lemma {:induction false} GotNext(s0: Bytes, r: Request, k: nat, s: Bytes, s': Bytes)
    requires k < 7 && |r.Strings()| == 7 && Got(s0, r, k, s)
    requires s == EncodeString(r.Strings()[k]) + s' && s' <= Rest(r, k + 1)
    ensures Got(s0, r, k + 1, s')
  {
    UptoAppend(r, k);
    Assoc(Upto(r, k), EncodeString(r.Strings()[k]), s');
    hide EncodeString, Upto, Rest;
  }

  lemma {:induction false} Assoc(a: Bytes, b: Bytes, c: Bytes)
    ensures a + (b + c) == a + b + c
  {
  }

  lemma {:induction false} RestStep(r: Request, k: nat)
    requires k < 7 && |r.Strings()| == 7
    ensures Rest(r, k) == EncodeString(r.Strings()[k]) + Rest(r, k + 1)
  {
    hide EncodeString;
    var ss := r.Strings();
    assert ss[k..][1..] == ss[k + 1..];
  }

  lemma {:induction false} GotLast(s0: Bytes, r: Request, s: Bytes)
    requires Got(s0, r, 7, s)
    ensures var x := EncodeString(FormatOpts(r.opts));
            && s <= x + []
            && (s == x ==> s0 == EncodeRequest(r))
            && (|s| < |x| ==> |s0| < |EncodeRequest(r)|)
  {
    hide EncodeString;
    RequestSplit(r, 7);
    assert r.Strings()[7..] == [];
  }

  /** Name and resource of every attribute arrive, and the value, behind which the host variable stands in a variable
      list. */
  lemma {:induction false} ArrivedAre(attrs: seq<Attr>, hostvar: Option<Bytes>)
    ensures var got := ArrivedAttrs(attrs, hostvar);
            && |got| == |attrs|
            && forall i :: 0 <= i < |attrs| ==>
                 got[i] ==
                 if attrs[i].name == VARIABLE_LIST && attrs[i].resource.None?
                 then Attr(VARIABLE_LIST, None, attrs[i].value + hostvar.GetOr([]))
                 else attrs[i]
  {
    if attrs != [] {
      ArrivedAre(attrs[1..], hostvar);
      assert attrs[0].value + [] == attrs[0].value;
    }
  }

  lemma {:induction false} ArrivedParts(r: Request, hostvar: Option<Bytes>)
    ensures Arrived(r, hostvar)
         == Request(ArrivedAttrs(r.attrs, hostvar), r.destination, r.script, r.credName, Some(r.vValue.GetOr([])),
                    r.basicEnv, Some(r.qsubEnv.GetOr([])), r.cwd, r.opts)
  {
  }

  lemma {:induction false} CutIs(s0: Bytes, r: Request, ok: bool, fault: bool)
    requires !ok ==> Cut(s0, r, fault)
    ensures !ok ==> fault || s0 != EncodeRequest(r)
  {
  }

  /** What should be on the socket when the attribute list and the first k strings have been sent. */
  ghost function Upto(r: Request, k: nat): Bytes
    requires k <= 7
  {
    EncodeAttrList(r.attrs) + EncodeStrings(r.Strings()[..k])
  }

  /** done is what should have been sent by now, in addition to s0; got is what is on the socket. */
  ghost predicate Progress(got: Bytes, s0: Bytes, done: Bytes, ok: bool) {
    if ok then got == s0 + done else s0 <= got <= s0 + done
  }

  lemma {:induction false} ProgressFrom(got: Bytes, s0: Bytes, done: Bytes, ok: bool)
    requires if ok then got == s0 + done else s0 <= got <= s0 + done
    ensures Progress(got, s0, done, ok)
  {
  }

  lemma {:induction false} FirstUpto(r: Request)
    requires r.Valid()
    ensures Upto(r, 0) == EncodeAttrList(r.attrs) && SizeOf(r.attrs) < INT_LIMIT
  {
    assert r.Strings()[..0] == [];
  }

  lemma {:induction false} LastUpto(r: Request)
    requires r.Valid()
    ensures EncodeRequest(r) == Upto(r, 7) + EncodeString(FormatOpts(r.opts))
    ensures EncodeString(FormatOpts(r.opts)) != [] && |FormatOpts(r.opts)| < 100
  {
    assert r.Strings()[..7] == r.Strings();
    assert |EncodeString(FormatOpts(r.opts))| > 0;
  }

  lemma {:induction false} EncodeStringsAppend(x: seq<Bytes>, s: Bytes)
    ensures EncodeStrings(x + [s]) == EncodeStrings(x) + EncodeString(s)
  {
    hide EncodeString;
    if x == [] {
      assert x + [s] == [s] && [s][1..] == [];
    } else {
      assert (x + [s])[1..] == x[1..] + [s];
      EncodeStringsAppend(x[1..], s);
      assert EncodeString(x[0]) + (EncodeStrings(x[1..]) + EncodeString(s)) == EncodeStrings(x) + EncodeString(s);
    }
  }

  lemma {:induction false} UptoAppend(r: Request, k: nat)
    requires k < 7 && |r.Strings()| == 7
    ensures Upto(r, k + 1) == Upto(r, k) + EncodeString(r.Strings()[k])
  {
    hide EncodeString, EncodeStrings, EncodeAttrList;
    var ss := r.Strings();
    assert ss[..k] + [ss[k]] == ss[..k + 1];
    EncodeStringsAppend(ss[..k], ss[k]);
    Assoc(EncodeAttrList(r.attrs), EncodeStrings(ss[..k]), EncodeString(ss[k]));
  }

  lemma {:induction false} UptoStep(r: Request, k: nat)
    requires r.Valid() && k < 7 && |r.Strings()| == 7
    ensures var s := r.Strings()[k];
            Text(s) && |s| < INT_LIMIT - 1 && Upto(r, k + 1) == Upto(r, k) + EncodeString(s)
  {
    UptoAppend(r, k);
    assert r.Strings()[k] in r.Strings();
    hide EncodeString, Upto, FormatOpts, SizeOf;
  }

  lemma {:induction false} StringOrder(r: Request)
    ensures |r.Strings()| == 7
    ensures r.Strings()[0] == r.destination && r.Strings()[1] == r.script && r.Strings()[2] == r.credName
    ensures r.Strings()[3] == r.vValue.GetOr([]) && r.Strings()[4] == r.basicEnv
    ensures r.Strings()[5] == r.qsubEnv.GetOr([]) && r.Strings()[6] == r.cwd
  {
  }

  /** One more string, when all before it were sent. */
  method SendItem(sock: Socket, ok0: bool, s: Bytes, ghost s0: Bytes, ghost done: Bytes) returns (ok: bool)
    requires |s| < INT_LIMIT - 1 && Progress(sock.stream, s0, done, ok0)
    modifies sock
    ensures sock.broken == old(sock.broken) && sock.choked == (old(sock.choked) || (ok0 && !ok)) && (ok ==> ok0)
    ensures Progress(sock.stream, s0, done + EncodeString(s), ok)
  {
    hide EncodeString;
    assert s0 + (done + EncodeString(s)) == s0 + done + EncodeString(s);
    ok := ok0;
    if ok {
      var rc := SendString(sock, s);
      ok := rc == 0;
    }
  }

  method SendNext(sock: Socket, ok0: bool, s: Bytes, ghost r: Request, ghost k: nat, ghost s0: Bytes)
      returns (ok: bool)
    requires r.Valid() && k < 7 && |r.Strings()| == 7 && s == r.Strings()[k]
    requires Progress(sock.stream, s0, Upto(r, k), ok0)
    modifies sock
    ensures sock.broken == old(sock.broken) && sock.choked == (old(sock.choked) || (ok0 && !ok)) && (ok ==> ok0)
    ensures Progress(sock.stream, s0, Upto(r, k + 1), ok)
  {
    UptoStep(r, k);
    hide *;
    ok := SendItem(sock, ok0, s, s0, Upto(r, k));
  }

  lemma {:induction false} LastItem(s0: Bytes, done: Bytes, item: Bytes, got: Bytes, ok: bool)
    requires item != [] && Progress(got, s0, done, ok)
    ensures s0 + (done + item) == s0 + done + item
    ensures if ok then got == s0 + done else s0 <= got < s0 + (done + item)
  {
    assert s0 + (done + item) == s0 + done + item;
  }

  /** sscanf with k conversions into the option registers. */
  method ReadOpts(text: Bytes, k: nat) returns (opts: seq<nat>)
    ensures opts == ScanOpts(text, k)
  {
    opts := [];
    var s, i := text, 0;
    while i < k
      invariant 0 <= i <= k
      invariant opts + ScanOpts(s, k - i) == ScanOpts(text, k)
    {
      s := SkipBlanks(s);
      var n: int := 0;
      ghost var from := s;
      while s != [] && IsDigit(s[0])
        invariant n >= 0 && ScanNumber(from, 0) == ScanNumber(s, n)
        decreases |s|
      {
        n, s := n * 10 + (s[0] as int - 48), s[1..];
      }
      opts := opts + [n];
      i := i + 1;
    }
  }

  lemma {:induction false} EmptyAttrs(b: Bytes, attrs: seq<Attr>)
    requires b == []
    ensures SizeOf(attrs[..0]) == 0 && EncodeAttrs(attrs[..0]) == b
  {
    assert attrs[..0] == [];
  }

  lemma {:induction false} WholeEntry(a: Attr, b0: Bytes)
    requires a.Size() < INT_LIMIT
    ensures var r := if a.resource.Some? then a.resource.value + [0] else [];
            b0 + Lengths(a) + (a.name + [0]) + r + (a.value + [0]) == b0 + EncodeAttr(a)
  {
    hide EncodeInt;
  }
}
