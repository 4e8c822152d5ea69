/** Sending and receiving whole frames over a socket that moves as many bytes per call as it likes. */
module SocketIO {
  import opened Bytes
  import opened Frames
  import opened Events

  datatype Readiness = Ready | WasInterrupted | Failed

  /** The kernel's end of a connected socket. */
  class Connection {
    var inbound: seq<byte>    // what the peer still gets across before the stream ends
    var outbound: seq<byte>   // what has been sent
    var shut: bool
    var closed: bool
    var interrupts: nat       // how many times select will yet be interrupted

    constructor (inbound: seq<byte>, interrupts: nat)
      ensures this.inbound == inbound && outbound == [] && !shut && !closed
    {
      this.inbound, this.outbound, this.interrupts := inbound, [], interrupts;
      shut, closed := false, false;
    }

    /** recv: any positive number of bytes that have arrived, or none once the stream has ended. */
    method Recv(buf: array<byte>, at: nat, n: nat) returns (r: int)
      requires 0 < n && at + n <= buf.Length
      modifies this`inbound, buf
      ensures if old(inbound) == [] then r <= 0 else 0 < r <= Min(n, |old(inbound)|)
      ensures var k := if r > 0 then r else 0;
              && inbound == old(inbound)[k..]
              && buf[..] == old(buf[..at]) + old(inbound)[..k] + old(buf[at + k..])
    {
      if inbound == [] {
        r := *;
        r := if r > 0 then -r else r;
        assert buf[..] == buf[..at] + buf[at..];
        return;
      }
      var extra: int := *;
      r := 1 + extra % Min(n, |inbound|);
      forall i | 0 <= i < r { buf[at + i] := inbound[i]; }
      inbound := inbound[r..];
    }

    /** send: any positive number of the bytes offered, or a failure. */
    method Send(buf: array<byte>, at: nat, n: nat) returns (r: int)
      requires 0 < n && at + n <= buf.Length
      modifies this`outbound
      ensures r <= n
      ensures outbound == old(outbound) + buf[at..at + if r > 0 then r else 0]
    {
      r := *;
      if r > n { r := n; }
      if r > 0 { outbound := outbound + buf[at..at + r]; }
    }

    method Select() returns (r: Readiness)
      modifies this`interrupts
      ensures interrupts <= old(interrupts)
      ensures r == WasInterrupted ==> interrupts < old(interrupts)
    {
      var choice: int := *;
      if choice == 0 { return Failed; }
      if choice == 1 && interrupts > 0 {
        interrupts := interrupts - 1;
        return WasInterrupted;
      }
      return Ready;
    }
  }

  /** ws_recv_all: the next n bytes of the stream however it is chopped, or a failure when it ends before them. */
  method RecvAll(fd: Connection, buf: array<byte>, n: nat) returns (rc: int)
    requires n <= buf.Length
    modifies fd`inbound, buf
    ensures rc == 0 <==> n <= |old(fd.inbound)|
    ensures rc == 0 ==> buf[..n] == old(fd.inbound)[..n] && fd.inbound == old(fd.inbound)[n..]
    ensures rc != 0 ==> rc == -1
    ensures |fd.inbound| <= |old(fd.inbound)|
  {
    var done := 0;
    while done < n
      invariant 0 <= done <= n && done <= |old(fd.inbound)|
      invariant buf[..done] == old(fd.inbound)[..done] && fd.inbound == old(fd.inbound)[done..]
    {
      var r := fd.Recv(buf, done, n - done);
      if r <= 0 { return -1; }
      assert buf[..done + r] == buf[..done] + buf[done..done + r];
      done := done + r;
    }
    return 0;
  }

  /** ws_send_all: the whole buffer goes out, or a proper prefix of it and a failure. */
  method SendAll(fd: Connection, buf: array<byte>, n: nat) returns (rc: int, ghost accepted: nat)
    requires n <= buf.Length
    modifies fd`outbound
    ensures accepted <= n && fd.outbound == old(fd.outbound) + buf[..accepted]
    ensures rc == (if accepted == n then 0 else -1)
  {
    var done := 0;
    while done < n
      invariant 0 <= done <= n
      invariant fd.outbound == old(fd.outbound) + buf[..done]
    {
      var r := fd.Send(buf, done, n - done);
      if r <= 0 { return -1, done; }
      assert buf[..done + r] == buf[..done] + buf[done..done + r];
      done := done + r;
    }
    return 0, n;
  }

  /** The eight octets of the longest length form, most significant first. */
  method FillLength64(hdr: array<byte>, len: nat)
    requires hdr.Length == 14
    modifies hdr
    ensures hdr[..2] == old(hdr[..2]) && hdr[2..10] == BigEndian(len, 8)
  {
    var hlen, i := 2, 8;
    while i > 0
      invariant 0 <= i <= 8 && hlen == 10 - i
      invariant hdr[0] == old(hdr[0]) && hdr[1] == old(hdr[1])
      invariant forall k :: 2 <= k < hlen ==> hdr[k] == BigEndian(len, 8)[k - 2]
    {
      BigEndianAt(len, 8, 8 - i);
      hdr[hlen] := ToByte(len / Pow256(i - 1) % 256);
      hlen := hlen + 1;
      i := i - 1;
    }
  }

  /** The part of ws_send_frame_locked that lays out the length. */
  method FillLength(hdr: array<byte>, len: nat) returns (hlen: nat)
    requires hdr.Length == 14 && len < SIZE_LIMIT
    modifies hdr
    ensures hlen == 1 + |LengthField(0x80, len)| && hdr[0] == old(hdr[0]) && hdr[1..hlen] == LengthField(0x80, len)
  {
    if len <= 125 {
      hdr[1] := 0x80 | ToByte(len);
      hlen := 2;
    } else if len <= 0xFFFF {
      hdr[1] := 0x80 | 126;
      hdr[2] := ToByte(len / 256);
      hdr[3] := ToByte(len % 256);
      hlen := 4;
      TwoOctets(len);
      assert hdr[2..4] == BigEndian(len, 2);
      assert hdr[1..4] == [hdr[1]] + hdr[2..4];
    } else {
      hdr[1] := 0x80 | 127;
      FillLength64(hdr, len);
      hlen := 10;
      assert hdr[1] == hdr[..2][1] == 0x80 | 127;
      assert hdr[0] == hdr[..2][0];
      assert hdr[1..10] == [hdr[1]] + hdr[2..10];
    }
  }

  /** The part of ws_send_frame_locked that lays out the header. */
  method FillHeader(hdr: array<byte>, opcode: byte, len: nat, key: seq<byte>) returns (hlen: nat)
    requires hdr.Length == 14 && len < SIZE_LIMIT && |key| == 4
    modifies hdr
    ensures hlen <= 14 && hdr[..hlen] == Header(opcode, len, key)
  {
    hdr[0] := 0x80 | (opcode & 0x0f);
    hlen := FillLength(hdr, len);
    ghost var l := hdr[1..hlen];
    hdr[hlen], hdr[hlen + 1], hdr[hlen + 2], hdr[hlen + 3] := key[0], key[1], key[2], key[3];
    assert hdr[1..hlen] == l;
    assert hdr[hlen..hlen + 4] == key;
    assert hdr[..hlen + 4] == [hdr[0]] + hdr[1..hlen] + hdr[hlen..hlen + 4];
    hlen := hlen + 4;
  }

  lemma TwoOctets(n: nat)
    requires n <= 0xFFFF
    ensures BigEndian(n, 2) == [ToByte(n / 256), ToByte(n % 256)]
  {
    assert n / 256 % 256 == n / 256;
    assert BigEndian(n / 256, 1) == [] + [ToByte(n / 256 % 256)];
  }

  /** ws_send_frame_locked on an open connection: one frame, or a proper prefix of one and a failure. */
  method SendFrame(fd: Connection, data: seq<byte>, opcode: byte, key: seq<byte>) returns (rc: int, ghost accepted: nat)
    requires |data| <= INT_MAX && |key| == 4
    modifies fd`outbound
    ensures var e := Encode(opcode, data, key);
            && accepted <= |e| && fd.outbound == old(fd.outbound) + e[..accepted]
            && rc == (if accepted == |e| then 0 else -1)
  {
    ghost var h, m, before := Header(opcode, |data|, key), Mask(data, key), fd.outbound;
    var hdr := new byte[14];
    var hlen := FillHeader(hdr, opcode, |data|, key);
    rc, accepted := SendAll(fd, hdr, hlen);
    assert hdr[..accepted] == h[..accepted] == (h + m)[..accepted] by {
      assert hdr[..accepted] == hdr[..hlen][..accepted];
    }
    if rc != 0 || |data| == 0 { return; }
    var masked := new byte[|data|];
    MaskInto(masked, data, key);
    ghost var k;
    rc, k := SendAll(fd, masked, |data|);
    accepted := hlen + k;
    assert (h + m)[..accepted] == h + m[..k];
    assert fd.outbound == before + h + masked[..k] == before + (h + m[..k]);
  }

  /** masked[i] = data[i] ^ mkb[i & 3] over the whole payload. */
  method MaskInto(masked: array<byte>, data: seq<byte>, key: seq<byte>)
    requires masked.Length == |data| && |key| == 4
    modifies masked
    ensures masked[..] == Mask(data, key)
    ensures forall k :: 0 <= k <= |data| ==> masked[..k] == Mask(data, key)[..k]
  {
    for i := 0 to |data|
      invariant forall k :: 0 <= k < i ==> masked[k] == data[k] ^ key[k % 4]
    {
      masked[i] := data[i] ^ key[i % 4];
    }
    assert masked[..] == Mask(data, key);
    forall k | 0 <= k <= |data| ensures masked[..k] == Mask(data, key)[..k] {
      assert masked[..k] == masked[..][..k];
    }
  }

  datatype Reception = Delivery(frame: Frame) | HeaderMissing | Damaged

  /** The extended length, folded octet by octet. */
  method FoldLength(ext: array<byte>, n: nat) returns (plen: nat)
    requires n <= ext.Length
    ensures plen == Value(ext[..n])
  {
    plen := 0;
    for i := 0 to n
      invariant plen == Value(ext[..i])
    {
      assert ext[..i + 1][..i] == ext[..i];
      plen := 256 * plen + ext[i] as int;
    }
  }

  /** payload[i] ^= mk[i & 3] over the whole payload. */
  method Unmask(payload: array<byte>, mk: array<byte>)
    requires mk.Length == 4 && payload != mk
    modifies payload
    ensures payload[..] == Mask(old(payload[..]), mk[..])
  {
    ghost var key := mk[..];
    for i := 0 to payload.Length
      invariant mk[..] == key
      invariant forall k :: 0 <= k < i ==> payload[k] == old(payload[k]) ^ key[k % 4]
      invariant forall k :: i <= k < payload.Length ==> payload[k] == old(payload[k])
    {
      payload[i] := payload[i] ^ mk[i % 4];
    }
  }

  /** The receiving half of the worker loop: it reads exactly the frame that the parser finds at the stream's head. */
  method ReceiveFrame(fd: Connection) returns (r: Reception)
    modifies fd`inbound
    ensures Reports(Parse(old(fd.inbound), RECEIVE_CAP), r, old(fd.inbound), fd.inbound)
    ensures |fd.inbound| <= |old(fd.inbound)|
  {
    ghost var s := fd.inbound;
    var hdr := new byte[2];
    var rc := RecvAll(fd, hdr, 2);
    if rc != 0 { return HeaderMissing; }
    var b0, b1 := hdr[0], hdr[1];
    assert b0 == hdr[..2][0] == s[0] && b1 == hdr[..2][1] == s[1];
    r := ReceiveBody(fd, b0 & 0x80 != 0, b0 & 0x0f, b1 & 0x80 != 0, b1 & 0x7f, s);
  }

  /** The extended length, when the 7-bit one announces it. */
  method ReceiveLength(fd: Connection, short: byte, ghost s: seq<byte>) returns (rc: int, plen: nat)
    requires |s| >= 2 && fd.inbound == s[2..]
    modifies fd`inbound
    ensures var ext := ExtraLength(short);
            && (rc == 0 <==> 2 + ext <= |s|)
            && (rc == 0 ==>
                  fd.inbound == s[2 + ext..] && plen == if ext == 0 then short as int else Value(s[2..2 + ext]))
    ensures |fd.inbound| <= |s|
  {
    rc, plen := 0, short as int;
    if short == 126 {
      var ext := new byte[2];
      rc := RecvAll(fd, ext, 2);
      if rc != 0 { return; }
      plen := FoldLength(ext, 2);
      assert ext[..2] == s[2..][..2] == s[2..4];
    } else if short == 127 {
      var ext := new byte[8];
      rc := RecvAll(fd, ext, 8);
      if rc != 0 { return; }
      plen := FoldLength(ext, 8);
      assert ext[..8] == s[2..][..8] == s[2..10];
    }
  }

  /** The masking key, when the frame carries one. */
  method ReceiveKey(fd: Connection, masked: bool, mk: array<byte>, ghost s: seq<byte>, ghost at: nat) returns (rc: int)
    requires mk.Length == 4 && at <= |s| && fd.inbound == s[at..]
    modifies fd`inbound, mk
    ensures var start := at + if masked then 4 else 0;
            && (rc == 0 <==> start <= |s|)
            && (rc == 0 ==> fd.inbound == s[start..] && (masked ==> mk[..] == s[start - 4..start]))
    ensures |fd.inbound| <= |s|
  {
    rc := 0;
    if masked {
      rc := RecvAll(fd, mk, 4);
      assert mk[..] == mk[..4];
    }
  }

  /** The payload of a known length, unmasked if need be. */
  method ReceivePayload(fd: Connection, masked: bool, mk: array<byte>, plen: nat)
    returns (rc: int, payload: array<byte>)
    requires mk.Length == 4
    modifies fd`inbound
    ensures rc == 0 <==> plen <= |old(fd.inbound)|
    ensures rc == 0 ==> fd.inbound == old(fd.inbound)[plen..]
    ensures rc == 0 ==> var raw := old(fd.inbound)[..plen]; payload[..] == if masked then Mask(raw, mk[..]) else raw
    ensures |fd.inbound| <= |old(fd.inbound)|
  {
    payload := new byte[plen];
    rc := RecvAll(fd, payload, plen);
    if rc != 0 { return; }
    assert payload[..] == payload[..plen];
    if masked { Unmask(payload, mk); }
  }

  /** What the receiver reports, and what it leaves of the stream, when the parser finds p at the head of s. */
  ghost predicate Reports(p: Parsed, r: Reception, s: seq<byte>, left: seq<byte>) {
    match p
    case NoHeader => r == HeaderMissing
    case Broken => r == Damaged
    case Whole(f, used) => used <= |s| && r == Delivery(f) && left == s[used..]
  }

  method ReceiveTail(fd: Connection, fin: bool, op: byte, masked: bool, ghost at: nat, plen: nat, ghost s: seq<byte>)
    returns (r: Reception)
    requires 2 <= at <= |s| && fd.inbound == s[at..]
    modifies fd`inbound
    ensures Reports(ParseTail(s, fin, op, masked, at, plen, RECEIVE_CAP), r, s, fd.inbound)
    ensures |fd.inbound| <= |s|
  {
    var mk := new byte[4];
    var rc := ReceiveKey(fd, masked, mk, s, at);
    if rc != 0 { return Damaged; }
    ghost var start := at + if masked then 4 else 0;
    if plen > RECEIVE_CAP { return Damaged; }
    var payload;
    rc, payload := ReceivePayload(fd, masked, mk, plen);
    if rc != 0 { return Damaged; }
    SliceOfTail(s, start, plen);
    return Delivery(Frame(fin, op, payload[..]));
  }

  method ReceiveBody(fd: Connection, fin: bool, op: byte, masked: bool, short: byte, ghost s: seq<byte>)
    returns (r: Reception)
    requires |s| >= 2 && fd.inbound == s[2..]
    modifies fd`inbound
    ensures Reports(ParseBody(s, fin, op, masked, short, RECEIVE_CAP), r, s, fd.inbound)
    ensures |fd.inbound| <= |s|
  {
    var rc, plen := ReceiveLength(fd, short, s);
    if rc != 0 { return Damaged; }
    r := ReceiveTail(fd, fin, op, masked, 2 + ExtraLength(short), plen, s);
  }

  lemma SliceOfTail<T>(s: seq<T>, from: nat, n: nat)
    requires from + n <= |s|
    ensures s[from..][..n] == s[from..from + n] && s[from..][n..] == s[from + n..]
  {
  }
}
