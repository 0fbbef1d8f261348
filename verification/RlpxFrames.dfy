/** Writing and reading RLPx frames (p2p/rlpx.go). */
module RlpxFrames {
  import opened Transactions
  import opened Rlpx

  /** The secrets of one direction: its key stream, the MAC digest and the MAC block cipher. */
  datatype Secrets = Secrets(stream: nat -> Byte, digest: Bytes -> Bytes, block: Bytes -> Bytes)

  ghost predicate Proper(p: Secrets)
  {
    (forall b {:trigger p.digest(b)} :: |p.digest(b)| == 32) && (forall b {:trigger p.block(b)} :: |p.block(b)| == 16)
  }

  /** One end of a direction: how much of the key stream is used and what the MAC has absorbed. */
  datatype Side = Side(pos: nat, mac: Bytes)

  // ---- the cipher ----

  function Crypt(p: Secrets, pos: nat, d: Bytes): (r: Bytes)
    ensures |r| == |d|
    ensures forall i {:trigger r[i]} :: 0 <= i < |d| ==> r[i] == Xor(d[i], p.stream(pos + i))
  {
    seq(|d|, i requires 0 <= i < |d| => Xor(d[i], p.stream(pos + i)))
  }

  lemma CryptTwice(p: Secrets, pos: nat, d: Bytes)
    ensures Crypt(p, pos, Crypt(p, pos, d)) == d
  {
    forall i | 0 <= i < |d| ensures Crypt(p, pos, Crypt(p, pos, d))[i] == d[i] {
      XorBack(d[i], p.stream(pos + i));
    }
  }

  lemma CryptJoined(p: Secrets, pos: nat, a: Bytes, b: Bytes)
    ensures Crypt(p, pos, a + b) == Crypt(p, pos, a) + Crypt(p, pos + |a|, b)
  {
  }

  // ---- the MAC ----

  /** updateMAC: absorbs the seed masked by the block cipher of the present digest. */
  function MacAfter(p: Secrets, mac: Bytes, seed: Bytes): Bytes
    requires |p.block(p.digest(mac))| == 16 && |seed| >= 16
  {
    var mask := p.block(p.digest(mac));
    mac + seq(16, i requires 0 <= i < 16 => Xor(mask[i], seed[i]))
  }

  function Tag(p: Secrets, mac: Bytes): Bytes
    requires |p.digest(mac)| == 32
  {
    p.digest(mac)[..16]
  }

  method UpdateMac(p: Secrets, mac: Bytes, seed: Bytes) returns (mac2: Bytes, tag: Bytes)
    requires Proper(p) && |seed| >= 16
    ensures mac2 == MacAfter(p, mac, seed) && tag == Tag(p, mac2) && |tag| == 16
  {
    var buf := p.block(p.digest(mac));
    ghost var mask := buf;
    for i := 0 to 16
      invariant |buf| == 16 && forall j :: 0 <= j < 16 ==> buf[j] == if j < i then Xor(mask[j], seed[j]) else mask[j]
    {
      buf := buf[i := Xor(buf[i], seed[i])];
    }
    assert buf == seq(16, i requires 0 <= i < 16 => Xor(mask[i], seed[i]));
    mac2 := mac + buf;
    tag := p.digest(mac2)[..16];
  }

  // ---- frames ----

  /** The zero bytes that fill a frame up to a multiple of sixteen. */
  function Padding(n: nat): Bytes
  {
    seq(if n % 16 == 0 then 0 else 16 - n % 16, _ => 0)
  }

  /** The header: the size, the fixed header data and zeros. */
  function Header(size: nat): Bytes
    requires size <= MAX_UINT24
  {
    PutInt24(size) + [0xC2, 0x80, 0x80] + [0, 0, 0, 0, 0, 0, 0, 0, 0, 0]
  }

  /** What one frame puts on the wire, and where it leaves the writer. */
  datatype Written = Written(wire: Bytes, side: Side)

  /** A frame whose header announces `size` bytes and whose body is `content`, padded for that size. */
  ghost function FramedAs(p: Secrets, s: Side, content: Bytes, size: nat): Written
    requires Proper(p) && size <= MAX_UINT24
  {
    var head := Crypt(p, s.pos, Header(size));
    var mac1 := MacAfter(p, s.mac, head);
    var body := Crypt(p, s.pos + 16, content + Padding(size));
    var mac2 := mac1 + body;
    var mac3 := MacAfter(p, mac2, p.digest(mac2));
    Written(head + Tag(p, mac1) + body + Tag(p, mac3), Side(s.pos + 16 + |body|, mac3))
  }

  ghost function Framed(p: Secrets, s: Side, content: Bytes): Written
    requires Proper(p) && |content| <= MAX_UINT24
  {
    FramedAs(p, s, content, |content|)
  }

  /** The size of a content as a 32-bit number. */
  function Size32(content: Bytes): nat
  {
    |content| % TWO_TO_32
  }

  /** Adding in 32 bits what was cut to 32 bits before. */
  lemma WrappedSum(a: nat, b: nat)
    ensures (a + b % TWO_TO_32) % TWO_TO_32 == (a + b) % TWO_TO_32
  {
  }

  /** The size as the source adds it up. */
  method FrameSize(ptype: Bytes, payload: Bytes) returns (fsize: nat)
    ensures fsize == Size32(ptype + payload)
  {
    var size := |payload| % TWO_TO_32;
    fsize := (|ptype| + size) % TWO_TO_32;
    WrappedSum(|ptype|, |payload|);
  }

  /** WriteMsg: the size check with its 32-bit sum, the header, then the content in three pieces through
      the cipher and the MAC, then the frame's tag. */
  method WriteMsg(p: Secrets, s: Side, code: nat, payload: Bytes) returns (ok: bool, wire: Bytes, s2: Side)
    requires Proper(p) && code < Pow256(8)
    ensures ok <==> Size32(EncodeUint(code) + payload) <= MAX_UINT24
    ensures !ok ==> wire == [] && s2 == s
    ensures ok ==>
              var content := EncodeUint(code) + payload;
              Written(wire, s2) == FramedAs(p, s, content, Size32(content))
  {
    wire, s2 := [], s;
    var ptype := EncodeUint(code);
    var fsize := FrameSize(ptype, payload);
    ok := fsize <= MAX_UINT24;
    if ok {
      wire, s2 := WriteFrame(p, s, ptype, payload, fsize);
    }
  }

  method WriteFrame(p: Secrets, s: Side, ptype: Bytes, payload: Bytes, fsize: nat) returns (wire: Bytes, s2: Side)
    requires Proper(p) && fsize <= MAX_UINT24
    ensures Written(wire, s2) == FramedAs(p, s, ptype + payload, fsize)
  {
    var head := Crypt(p, s.pos, Header(fsize));
    var mac, tag := UpdateMac(p, s.mac, head);
    wire := head + tag;
    var body;
    body, mac := WriteBody(p, s.pos + 16, mac, ptype, payload, Padding(fsize));
    wire := wire + body;
    var seed := p.digest(mac);
    mac, tag := UpdateMac(p, mac, seed);
    wire := wire + tag;
    s2 := Side(s.pos + 16 + |body|, mac);
  }

  /** Three writes through the cipher; what goes out is absorbed by the MAC. */
  method WriteBody(p: Secrets, pos: nat, mac: Bytes, ptype: Bytes, payload: Bytes, pad: Bytes)
    returns (body: Bytes, mac2: Bytes)
    ensures body == Crypt(p, pos, ptype + payload + pad) && mac2 == mac + body
  {
    body := Crypt(p, pos, ptype);
    mac2 := mac + body;
    var next := Crypt(p, pos + |ptype|, payload);
    CryptJoined(p, pos, ptype, payload);
    body, mac2 := body + next, mac2 + next;
    assert mac2 == mac + body;
    next := Crypt(p, pos + |ptype| + |payload|, pad);
    CryptJoined(p, pos, ptype + payload, pad);
    body, mac2 := body + next, mac2 + next;
    assert mac2 == mac + body;
  }

  // ---- reading ----

  datatype ReadError = Short | BadHeaderMac | BadFrameMac | BadCode

  datatype ReadResult = Message(code: nat, payload: Bytes) | Failed(error: ReadError)

  /** The size that an authentic header announces. */
  ghost function HeaderSize(p: Secrets, s: Side, conn: Bytes): Option<nat>
    requires Proper(p) && |conn| >= 32
  {
    var head := conn[..16];
    if Tag(p, MacAfter(p, s.mac, head)) != conn[16..32] then None else Some(ReadInt24(Crypt(p, s.pos, head)))
  }

  /** The content of an authentic frame, or nothing if the frame's tag is wrong. */
  ghost function FrameContent(p: Secrets, s: Side, head: Bytes, body: Bytes, tag: Bytes): (r: Option<Bytes>)
    requires Proper(p) && |head| == 16
    ensures r.Some? ==> |r.value| == |body|
  {
    var mac2 := MacAfter(p, s.mac, head) + body;
    if Tag(p, MacAfter(p, mac2, p.digest(mac2))) != tag then None else Some(Crypt(p, s.pos + 16, body))
  }

  ghost function SideAfter(p: Secrets, s: Side, head: Bytes, body: Bytes): Side
    requires Proper(p) && |head| == 16
  {
    var mac2 := MacAfter(p, s.mac, head) + body;
    Side(s.pos + 16 + |body|, MacAfter(p, mac2, p.digest(mac2)))
  }

  /** What a frame's content says: a code and the payload behind it. */
  function Opened(content: Bytes): ReadResult
  {
    match DecodeUint(content)
    case None => Failed(BadCode)
    case Some((code, n)) => if n <= |content| then Message(code, content[n..]) else Failed(BadCode)
  }

  /** Where the frame ends that an authentic header announces. */
  ghost function FrameEnd(size: nat): nat
  {
    32 + size + |Padding(size)|
  }

  /** The content of the frame at the front of the wire, padding included, if the wire holds all of it and its
      tag is right. */
  ghost function ContentAt(p: Secrets, s: Side, conn: Bytes, end: nat): Option<Bytes>
    requires Proper(p) && end >= 32
  {
    if |conn| < end + 16 then None else FrameContent(p, s, conn[..16], conn[32..end], conn[end..end + 16])
  }

  /** What a reader makes of the wire. */
  ghost function Received(p: Secrets, s: Side, conn: Bytes): ReadResult
    requires Proper(p)
  {
    if |conn| < 32 then Failed(Short)
    else
      match HeaderSize(p, s, conn)
      case None => Failed(BadHeaderMac)
      case Some(size) =>
        match ContentAt(p, s, conn, FrameEnd(size))
        case None => Failed(if |conn| < FrameEnd(size) + 16 then Short else BadFrameMac)
        case Some(content) => Opened(content[..size])
  }

  /** ReadMsg: the header and its tag, then the padded frame and its tag, then the code. A message is
      delivered only if both tags are right. */
  method ReadMsg(p: Secrets, s: Side, conn: Bytes) returns (r: ReadResult, s2: Side, rest: Bytes)
    requires Proper(p)
    ensures r == Received(p, s, conn)
    ensures |conn| >= 32 && HeaderSize(p, s, conn).Some? ==>
              var end := FrameEnd(HeaderSize(p, s, conn).value);
              ContentAt(p, s, conn, end).Some? ==>
                s2 == SideAfter(p, s, conn[..16], conn[32..end]) && rest == conn[end + 16..]
  {
    s2, rest := s, conn;
    if |conn| < 32 {
      return Failed(Short), s2, rest;
    }
    var head := conn[..16];
    var mac, tag := UpdateMac(p, s.mac, head);
    if tag != conn[16..32] {
      return Failed(BadHeaderMac), s2, rest;
    }
    var plain := Crypt(p, s.pos, head);
    var fsize := ReadInt24(plain);
    var rsize := fsize + |Padding(fsize)|;
    if |conn| < 32 + rsize + 16 {
      return Failed(Short), s2, rest;
    }
    r, s2 := ReadBody(p, s, head, mac, conn[32..32 + rsize], conn[32 + rsize..48 + rsize], fsize);
    rest := conn[48 + rsize..];
  }

  method ReadBody(p: Secrets, s: Side, head: Bytes, mac: Bytes, body: Bytes, tag: Bytes, fsize: nat)
    returns (r: ReadResult, s2: Side)
    requires Proper(p) && |head| == 16 && mac == MacAfter(p, s.mac, head) && fsize <= |body|
    ensures var content := FrameContent(p, s, head, body, tag);
            if content.None? then r == Failed(BadFrameMac)
            else s2 == SideAfter(p, s, head, body) && r == Opened(content.value[..fsize])
  {
    var mac2 := mac + body;
    var seed := p.digest(mac2);
    var mac3, should := UpdateMac(p, mac2, seed);
    s2 := Side(s.pos + 16 + |body|, mac3);
    if should != tag {
      return Failed(BadFrameMac), s2;
    }
    var content := Crypt(p, s.pos + 16, body);
    r := Opened(content[..fsize]);
  }

  // ---- the round trip ----

  lemma CodeRoundTrip(code: nat, payload: Bytes)
    requires code < Pow256(8)
    ensures Opened(EncodeUint(code) + payload) == Message(code, payload)
  {
    UintRoundTrip(code, payload);
    assert (EncodeUint(code) + payload)[|EncodeUint(code)|..] == payload;
  }

  /** The parts of a frame on the wire are where the reader looks for them. */
  lemma Parts(head: Bytes, t1: Bytes, body: Bytes, t2: Bytes, tail: Bytes)
    requires |head| == 16 && |t1| == 16 && |t2| == 16
    ensures var conn := head + t1 + body + t2 + tail;
            conn[..16] == head && conn[16..32] == t1 && conn[32..32 + |body|] == body &&
            conn[32 + |body|..48 + |body|] == t2 && conn[48 + |body|..] == tail
  {
  }

  lemma HeaderRoundTrip(p: Secrets, pos: nat, size: nat)
    requires size <= MAX_UINT24
    ensures ReadInt24(Crypt(p, pos, Crypt(p, pos, Header(size)))) == size
  {
    CryptTwice(p, pos, Header(size));
    assert Header(size) == PutInt24(size) + ([0xC2, 0x80, 0x80] + [0, 0, 0, 0, 0, 0, 0, 0, 0, 0]);
    Int24RoundTrip(size, [0xC2, 0x80, 0x80] + [0, 0, 0, 0, 0, 0, 0, 0, 0, 0]);
  }

  /** The pieces of a frame. */
  ghost predicate Pieces(p: Secrets, s: Side, content: Bytes, head: Bytes, body: Bytes, mac1: Bytes, mac2: Bytes,
                         mac3: Bytes)
    requires Proper(p) && |content| <= MAX_UINT24
  {
    head == Crypt(p, s.pos, Header(|content|)) && mac1 == MacAfter(p, s.mac, head) &&
    body == Crypt(p, s.pos + 16, content + Padding(|content|)) && mac2 == mac1 + body &&
    mac3 == MacAfter(p, mac2, p.digest(mac2))
  }

  /** The wire of a frame in pieces. */
  lemma FramedPieces(p: Secrets, s: Side, content: Bytes)
    returns (head: Bytes, body: Bytes, mac1: Bytes, mac2: Bytes, mac3: Bytes)
    requires Proper(p) && |content| <= MAX_UINT24
    ensures Pieces(p, s, content, head, body, mac1, mac2, mac3)
    ensures |head| == 16 && |body| == |content| + |Padding(|content|)|
    ensures Framed(p, s, content) == Written(head + Tag(p, mac1) + body + Tag(p, mac3), Side(s.pos + 16 + |body|, mac3))
  {
    head := Crypt(p, s.pos, Header(|content|));
    mac1 := MacAfter(p, s.mac, head);
    body := Crypt(p, s.pos + 16, content + Padding(|content|));
    mac2 := mac1 + body;
    mac3 := MacAfter(p, mac2, p.digest(mac2));
  }

  /** What a reader in the writer's state makes of the pieces. */
  lemma PiecesRoundTrip(p: Secrets, s: Side, content: Bytes, head: Bytes, body: Bytes, mac1: Bytes, mac2: Bytes,
                        mac3: Bytes)
    requires Proper(p) && |content| <= MAX_UINT24 && |head| == 16
    requires Pieces(p, s, content, head, body, mac1, mac2, mac3)
    ensures ReadInt24(Crypt(p, s.pos, head)) == |content|
    ensures FrameContent(p, s, head, body, Tag(p, mac3)) == Some(content + Padding(|content|))
    ensures SideAfter(p, s, head, body) == Side(s.pos + 16 + |body|, mac3)
  {
    HeaderRoundTrip(p, s.pos, |content|);
    CryptTwice(p, s.pos + 16, content + Padding(|content|));
  }

  /** A frame is accepted by a reader in the writer's state, its content is recovered and the reader ends
      up in the state that the writer was left in. */
  lemma FrameRoundTrip(p: Secrets, s: Side, content: Bytes, tail: Bytes)
    requires Proper(p) && |content| <= MAX_UINT24
    ensures var f := Framed(p, s, content);
            var conn := f.wire + tail;
            var end := FrameEnd(|content|);
            |conn| >= end + 16 && HeaderSize(p, s, conn) == Some(|content|) &&
            ContentAt(p, s, conn, end) == Some(content + Padding(|content|)) &&
            SideAfter(p, s, conn[..16], conn[32..end]) == f.side && conn[end + 16..] == tail
  {
    var head, body, mac1, mac2, mac3 := FramedPieces(p, s, content);
    PiecesRoundTrip(p, s, content, head, body, mac1, mac2, mac3);
    Parts(head, Tag(p, mac1), body, Tag(p, mac3), tail);
  }

  // ---- the layout ----

  /** A frame is a multiple of sixteen bytes: header, its tag, the content filled up by less than sixteen zeros, and
      the frame's tag. The key stream goes on by exactly what was encrypted. */
  lemma FrameLayout(p: Secrets, s: Side, content: Bytes)
    requires Proper(p) && |content| <= MAX_UINT24
    ensures var f := Framed(p, s, content);
            |f.wire| % 16 == 0 && 48 + |content| <= |f.wire| < 64 + |content| && f.side.pos == s.pos + |f.wire| - 32
    ensures var f, end := Framed(p, s, content), FrameEnd(|content|);
            Crypt(p, s.pos, f.wire[..16]) == Header(|content|) &&
            Crypt(p, s.pos + 16, f.wire[32..end]) == content + Padding(|content|) &&
            forall z :: z in Padding(|content|) ==> z == 0
  {
    var head, body, mac1, mac2, mac3 := FramedPieces(p, s, content);
    Parts(head, Tag(p, mac1), body, Tag(p, mac3), []);
    assert Framed(p, s, content).wire + [] == Framed(p, s, content).wire;
    CryptTwice(p, s.pos, Header(|content|));
    CryptTwice(p, s.pos + 16, content + Padding(|content|));
  }

  /** The header of a frame of 0x010203 bytes, with the RLP list of two empty strings. */
  lemma HeaderBytes()
    ensures Header(0x010203) == [1, 2, 3, 0xC2, 0x80, 0x80, 0, 0, 0, 0, 0, 0, 0, 0, 0, 0]
  {
  }

  /** A frame that is cut short anywhere is not taken for anything else. */
  lemma CutShort(p: Secrets, s: Side, content: Bytes, k: nat)
    requires Proper(p) && |content| <= MAX_UINT24 && k < |Framed(p, s, content).wire|
    ensures Received(p, s, Framed(p, s, content).wire[..k]) == Failed(Short)
  {
    var head, body, mac1, mac2, mac3 := FramedPieces(p, s, content);
    var wire := Framed(p, s, content).wire;
    Parts(head, Tag(p, mac1), body, Tag(p, mac3), []);
    assert wire + [] == wire;
    if k >= 32 {
      assert wire[..k][..16] == head && wire[..k][16..32] == Tag(p, mac1);
      PiecesRoundTrip(p, s, content, head, body, mac1, mac2, mac3);
    }
  }

  // ---- what the tags protect ----

  /** Two states of the MAC with the same tag. */
  ghost predicate Collide(p: Secrets, a: Bytes, b: Bytes)
    requires Proper(p)
  {
    a != b && Tag(p, a) == Tag(p, b)
  }

  /** Different seeds lead to different states, and so do different states. */
  lemma MacAbsorbs(p: Secrets, mac: Bytes, seed: Bytes, mac2: Bytes, seed2: Bytes)
    requires Proper(p) && |seed| >= 16 && |seed2| >= 16
    ensures MacAfter(p, mac, seed) == MacAfter(p, mac2, seed2) <==> mac == mac2 && seed[..16] == seed2[..16]
  {
    var a, b := MacAfter(p, mac, seed), MacAfter(p, mac2, seed2);
    assert |mac| == |mac2| ==> a[..|mac|] == mac && b[..|mac|] == mac2;
    if mac == mac2 && seed[..16] != seed2[..16] {
      var i :| 0 <= i < 16 && seed[..16][i] != seed2[..16][i];
      XorApart(p.block(p.digest(mac))[i], seed[i], seed2[i]);
      assert a[|mac| + i] != b[|mac| + i];
    } else if mac == mac2 {
      forall i | 0 <= i < 16 ensures seed[i] == seed2[i] {
        assert seed[..16][i] == seed2[..16][i];
      }
      assert a == b;
    }
  }

  /** Another header in front of the written tag is refused, unless the two states of the MAC collide. */
  lemma ChangedHeader(p: Secrets, s: Side, head: Bytes, conn: Bytes)
    requires Proper(p) && |head| == 16 && |conn| >= 32 && conn[..16] != head
    requires conn[16..32] == Tag(p, MacAfter(p, s.mac, head))
    ensures Received(p, s, conn) == Failed(BadHeaderMac) <==>
            !Collide(p, MacAfter(p, s.mac, conn[..16]), MacAfter(p, s.mac, head))
  {
    MacAbsorbs(p, s.mac, conn[..16], s.mac, head);
    assert conn[..16][..16] == conn[..16] && head[..16] == head;
    OtherFailures(p, s, conn);
  }

  lemma OtherFailures(p: Secrets, s: Side, conn: Bytes)
    requires Proper(p) && |conn| >= 32
    ensures Received(p, s, conn) == Failed(BadHeaderMac) <==> HeaderSize(p, s, conn).None?
  {
  }

  /** The state of the MAC after a header and a body. */
  ghost function BodyMac(p: Secrets, s: Side, head: Bytes, body: Bytes): Bytes
    requires Proper(p) && |head| == 16
  {
    SideAfter(p, s, head, body).mac
  }

  lemma BodyAbsorbed(p: Secrets, s: Side, head: Bytes, body: Bytes, body2: Bytes)
    requires Proper(p) && |head| == 16 && body != body2
    ensures BodyMac(p, s, head, body) != BodyMac(p, s, head, body2)
  {
    var mac := MacAfter(p, s.mac, head);
    MacAbsorbs(p, mac + body, p.digest(mac + body), mac + body2, p.digest(mac + body2));
    assert (mac + body)[|mac|..] == body && (mac + body2)[|mac|..] == body2;
  }

  /** Behind an authentic header, another body in front of the written tag is refused, unless the two states of the
      MAC collide. */
  lemma ChangedBody(p: Secrets, s: Side, body: Bytes, conn: Bytes, end: nat)
    requires Proper(p) && |conn| >= 32 && HeaderSize(p, s, conn).Some?
    requires end == FrameEnd(HeaderSize(p, s, conn).value) && |conn| >= end + 16 && conn[32..end] != body
    requires conn[end..end + 16] == Tag(p, BodyMac(p, s, conn[..16], body))
    ensures Received(p, s, conn) == Failed(BadFrameMac) <==>
            !Collide(p, BodyMac(p, s, conn[..16], conn[32..end]), BodyMac(p, s, conn[..16], body))
  {
    BodyAbsorbed(p, s, conn[..16], conn[32..end], body);
  }

  /** A frame that is read in another state of the MAC than it was written in, as when it is repeated, is
      refused, unless the two states collide. */
  lemma OutOfTurn(p: Secrets, s: Side, s2: Side, content: Bytes, tail: Bytes)
    requires Proper(p) && |content| <= MAX_UINT24 && s2.mac != s.mac
    ensures var conn := Framed(p, s, content).wire + tail;
            |conn| >= 32 &&
            (Received(p, s2, conn) == Failed(BadHeaderMac) <==>
             !Collide(p, MacAfter(p, s2.mac, conn[..16]), MacAfter(p, s.mac, conn[..16])))
  {
    var head, body, mac1, mac2, mac3 := FramedPieces(p, s, content);
    Parts(head, Tag(p, mac1), body, Tag(p, mac3), tail);
    var conn := Framed(p, s, content).wire + tail;
    MacAbsorbs(p, s2.mac, head, s.mac, head);
    OtherFailures(p, s2, conn);
  }

  /** What a reader in the writer's state makes of a wire in which one part of a frame was replaced by another of
      its length: an error that tells which tag is wrong, unless states of the MAC collide. */
  lemma Tampered(p: Secrets, s: Side, content: Bytes, conn: Bytes, end: nat)
    requires Proper(p) && |content| <= MAX_UINT24 && end == FrameEnd(|content|) && |conn| >= end + 16
    ensures var wire := Framed(p, s, content).wire;
            |wire| == end + 16 &&
            (conn[..16] == wire[..16] && conn[16..32] != wire[16..32] ==>
               Received(p, s, conn) == Failed(BadHeaderMac)) &&
            (conn[..16] != wire[..16] && conn[16..32] == wire[16..32] ==>
               (Received(p, s, conn) == Failed(BadHeaderMac) <==>
                !Collide(p, MacAfter(p, s.mac, conn[..16]), MacAfter(p, s.mac, wire[..16])))) &&
            (conn[..32] == wire[..32] && conn[32..end] == wire[32..end] && conn[end..end + 16] != wire[end..] ==>
               Received(p, s, conn) == Failed(BadFrameMac)) &&
            (conn[..32] == wire[..32] && conn[32..end] != wire[32..end] && conn[end..end + 16] == wire[end..] ==>
               (Received(p, s, conn) == Failed(BadFrameMac) <==>
                !Collide(p, BodyMac(p, s, wire[..16], conn[32..end]), BodyMac(p, s, wire[..16], wire[32..end]))))
  {
    var head, body, mac1, mac2, mac3 := FramedPieces(p, s, content);
    var wire := Framed(p, s, content).wire;
    Parts(head, Tag(p, mac1), body, Tag(p, mac3), []);
    assert wire + [] == wire;
    PiecesRoundTrip(p, s, content, head, body, mac1, mac2, mac3);
    if conn[..16] != head && conn[16..32] == Tag(p, mac1) {
      ChangedHeader(p, s, head, conn);
    }
    if conn[..32] == wire[..32] {
      TamperedBody(p, s, |content|, conn, wire, end, head, body, Tag(p, mac1), Tag(p, mac3));
    }
  }

  lemma TamperedBody(p: Secrets, s: Side, size: nat, conn: Bytes, wire: Bytes, end: nat, head: Bytes, body: Bytes,
                     t1: Bytes, t3: Bytes)
    requires Proper(p) && end == FrameEnd(size) && |conn| >= end + 16 && |wire| == end + 16 && conn[..32] == wire[..32]
    requires |head| == 16 && wire[..16] == head && wire[16..32] == t1 && wire[32..end] == body && wire[end..] == t3
    requires t1 == Tag(p, MacAfter(p, s.mac, head)) && t3 == Tag(p, BodyMac(p, s, head, body))
    requires ReadInt24(Crypt(p, s.pos, head)) == size
    ensures conn[32..end] == body && conn[end..end + 16] != t3 ==> Received(p, s, conn) == Failed(BadFrameMac)
    ensures conn[32..end] != body && conn[end..end + 16] == t3 ==>
              (Received(p, s, conn) == Failed(BadFrameMac) <==>
               !Collide(p, BodyMac(p, s, head, conn[32..end]), BodyMac(p, s, head, body)))
  {
    assert conn[..16] == conn[..32][..16] == head && conn[16..32] == conn[..32][16..] == wire[..32][16..] == t1;
    assert HeaderSize(p, s, conn) == Some(size);
    if conn[32..end] != body && conn[end..end + 16] == t3 {
      ChangedBody(p, s, body, conn, end);
    }
  }

  // ---- sizes that wrap ----

  datatype Msg = Msg(code: nat, payload: Bytes)

  /** The message fits into one frame. */
  predicate Fits(m: Msg)
  {
    m.code < Pow256(8) && |EncodeUint(m.code)| + |m.payload| <= MAX_UINT24
  }

  /** The content of a message that fits does not wrap. */
  lemma FitsUnwrapped(m: Msg)
    requires Fits(m)
    ensures var content := EncodeUint(m.code) + m.payload; Size32(content) == |content| <= MAX_UINT24
  {
    assert |EncodeUint(m.code) + m.payload| == |EncodeUint(m.code)| + |m.payload|;
  }

  /** The reader takes the announced size from the header, whatever the body holds. */
  lemma HeaderAnnounces(p: Secrets, s: Side, content: Bytes, size: nat, tail: Bytes)
    requires Proper(p) && size <= MAX_UINT24
    ensures var conn := FramedAs(p, s, content, size).wire + tail;
            |conn| >= 32 && HeaderSize(p, s, conn) == Some(size)
  {
    var head := Crypt(p, s.pos, Header(size));
    var mac1 := MacAfter(p, s.mac, head);
    var body := Crypt(p, s.pos + 16, content + Padding(size));
    var mac3 := MacAfter(p, mac1 + body, p.digest(mac1 + body));
    HeaderRoundTrip(p, s.pos, size);
    Parts(head, Tag(p, mac1), body, Tag(p, mac3), tail);
  }

  /** A frame gives no payload that is longer than the size it announces, and none at all if that is zero. */
  lemma ReceivedWithin(p: Secrets, s: Side, content: Bytes, size: nat, tail: Bytes)
    requires Proper(p) && size <= MAX_UINT24
    ensures var r := Received(p, s, FramedAs(p, s, content, size).wire + tail); r.Message? ==> |r.payload| < size
  {
    HeaderAnnounces(p, s, content, size, tail);
  }

  /** A frame that does not wrap gives its content. */
  lemma ReceivedFramed(p: Secrets, s: Side, content: Bytes, tail: Bytes)
    requires Proper(p) && |content| <= MAX_UINT24
    ensures Received(p, s, Framed(p, s, content).wire + tail) == Opened(content)
  {
    FrameRoundTrip(p, s, content, tail);
    PaddingOff(content);
  }

  lemma PaddingOff(content: Bytes)
    ensures (content + Padding(|content|))[..|content|] == content
  {
  }

  /** A message that is accepted comes out at the other end if and only if it fits into one frame: a size that
      wraps is accepted and lost. */
  lemma ReadBackExactly(p: Secrets, s: Side, m: Msg, tail: Bytes)
    requires Proper(p) && m.code < Pow256(8) && Size32(EncodeUint(m.code) + m.payload) <= MAX_UINT24
    ensures var content := EncodeUint(m.code) + m.payload;
            var conn := FramedAs(p, s, content, Size32(content)).wire + tail;
            Received(p, s, conn) == Message(m.code, m.payload) <==> Fits(m)
  {
    var content := EncodeUint(m.code) + m.payload;
    if Fits(m) {
      FitsUnwrapped(m);
      ReceivedFramed(p, s, content, tail);
      CodeRoundTrip(m.code, m.payload);
    } else {
      CodeLength(m.code);
      assert |content| >= TWO_TO_32;
      ReceivedWithin(p, s, content, Size32(content), tail);
    }
  }

  lemma CodeLength(code: nat)
    requires code < Pow256(8)
    ensures 1 <= |EncodeUint(code)| <= 9
  {
    BigEndianLength(code, 8);
  }

  /** Code 0 with a payload of one byte less than 2^32: the size wraps to zero, the message is accepted, and the
      reader fails. */
  lemma WrappedIsLost(p: Secrets, s: Side, payload: Bytes, tail: Bytes)
    requires Proper(p) && |payload| == TWO_TO_32 - 1
    ensures 0 < Pow256(8)
    ensures var content := EncodeUint(0) + payload;
            Size32(content) == 0 && Received(p, s, FramedAs(p, s, content, 0).wire + tail).Failed?
    ensures |payload| == 4_294_967_295 && MAX_UINT24 == 16_777_215
  {
    var content := EncodeUint(0) + payload;
    assert |content| == TWO_TO_32;
    ReceivedWithin(p, s, content, 0, tail);
  }

  // ---- many messages ----

  predicate AllFit(ms: seq<Msg>)
  {
    forall i {:trigger ms[i]} :: 0 <= i < |ms| ==> Fits(ms[i])
  }

  /** The frame of a message, and nothing for one that does not fit. */
  ghost function FrameOf(p: Secrets, s: Side, m: Msg): Written
    requires Proper(p)
  {
    if Fits(m) then Framed(p, s, EncodeUint(m.code) + m.payload) else Written([], s)
  }

  /** How a writer in a given state puts a message on the wire. */
  type Framing = (Side, Msg) -> Written

  ghost function FramingOf(p: Secrets): Framing
    requires Proper(p)
  {
    (s, m) => FrameOf(p, s, m)
  }

  ghost predicate Frames(p: Secrets, framing: Framing)
    requires Proper(p)
  {
    forall s, m {:trigger FrameOf(p, s, m)} :: framing(s, m) == FrameOf(p, s, m)
  }

  /** The frames of a sequence of messages, one after the other, and the state after the last. */
  ghost function Stream(framing: Framing, s: Side, ms: seq<Msg>): Written
    decreases |ms|
  {
    if ms == [] then Written([], s)
    else
      var f := framing(s, ms[0]);
      var rest := Stream(framing, f.side, ms[1..]);
      Written(f.wire + rest.wire, rest.side)
  }

  lemma StreamNext(framing: Framing, s: Side, ms: seq<Msg>, i: nat)
    requires i < |ms|
    ensures var f := framing(s, ms[i]);
            var rest := Stream(framing, f.side, ms[i + 1..]);
            Stream(framing, s, ms[i..]) == Written(f.wire + rest.wire, rest.side)
  {
    assert ms[i..][0] == ms[i] && ms[i..][1..] == ms[i + 1..];
  }

  lemma Regroup(a: Bytes, b: Bytes, c: Bytes)
    ensures (a + b) + c == a + (b + c)
  {
  }

  /** Messages `i` on complete what is on the wire to `whole`. */
  ghost predicate Completes(framing: Framing, s: Side, ms: seq<Msg>, i: nat, wire: Bytes, whole: Written)
    requires i <= |ms|
  {
    whole == Written(wire + Stream(framing, s, ms[i..]).wire, Stream(framing, s, ms[i..]).side)
  }

  lemma CompletesNext(framing: Framing, s: Side, ms: seq<Msg>, i: nat, wire: Bytes, whole: Written)
    requires i < |ms| && Completes(framing, s, ms, i, wire, whole)
    ensures var f := framing(s, ms[i]); Completes(framing, f.side, ms, i + 1, wire + f.wire, whole)
  {
    StreamNext(framing, s, ms, i);
    var f := framing(s, ms[i]);
    Regroup(wire, f.wire, Stream(framing, f.side, ms[i + 1..]).wire);
  }

  lemma CompletesAll(framing: Framing, s: Side, ms: seq<Msg>, wire: Bytes, whole: Written)
    requires Completes(framing, s, ms, |ms|, wire, whole)
    ensures whole == Written(wire, s)
  {
    assert ms[|ms|..] == [] && wire + [] == wire;
  }

  lemma CompletesNone(framing: Framing, s: Side, ms: seq<Msg>)
    ensures Completes(framing, s, ms, 0, [], Stream(framing, s, ms))
  {
    assert ms[0..] == ms && [] + Stream(framing, s, ms).wire == Stream(framing, s, ms).wire;
  }

  method WriteAll(p: Secrets, s: Side, ms: seq<Msg>) returns (wire: Bytes, s2: Side)
    requires Proper(p) && AllFit(ms)
    ensures Written(wire, s2) == Stream(FramingOf(p), s, ms)
  {
    wire, s2 := WriteEach(p, FramingOf(p), s, ms);
  }

  method WriteEach(p: Secrets, ghost framing: Framing, s: Side, ms: seq<Msg>) returns (wire: Bytes, s2: Side)
    requires Proper(p) && Frames(p, framing) && AllFit(ms)
    ensures Written(wire, s2) == Stream(framing, s, ms)
  {
    wire, s2 := [], s;
    ghost var whole := Stream(framing, s, ms);
    CompletesNone(framing, s, ms);
    for i := 0 to |ms|
      invariant Completes(framing, s2, ms, i, wire, whole)
    {
      CompletesNext(framing, s2, ms, i, wire, whole);
      var frame;
      frame, s2 := WriteNext(p, framing, s2, ms[i]);
      wire := wire + frame;
    }
    CompletesAll(framing, s2, ms, wire, whole);
  }

  method WriteNext(p: Secrets, ghost framing: Framing, s: Side, m: Msg) returns (frame: Bytes, s2: Side)
    requires Proper(p) && Frames(p, framing) && Fits(m)
    ensures Written(frame, s2) == framing(s, m)
  {
    FitsUnwrapped(m);
    var ok;
    ok, frame, s2 := WriteMsg(p, s, m.code, m.payload);
    assert framing(s, m) == FrameOf(p, s, m);
  }

  /** Reads one message that is known to be at the front of the wire. */
  method ReadNext(p: Secrets, ghost framing: Framing, s: Side, conn: Bytes, ghost m: Msg, ghost tail: Bytes)
    returns (got: Msg, s2: Side, rest: Bytes)
    requires Proper(p) && Frames(p, framing) && Fits(m) && conn == framing(s, m).wire + tail
    ensures got == m && rest == tail && s2 == framing(s, m).side
  {
    assert framing(s, m) == FrameOf(p, s, m);
    ghost var content := EncodeUint(m.code) + m.payload;
    FitsUnwrapped(m);
    CodeRoundTrip(m.code, m.payload);
    var r;
    r, s2, rest := ReadFramed(p, s, conn, content, tail);
    got := Msg(r.code, r.payload);
  }

  /** Reads a frame whose content is known. */
  method ReadFramed(p: Secrets, s: Side, conn: Bytes, ghost content: Bytes, ghost tail: Bytes)
    returns (r: ReadResult, s2: Side, rest: Bytes)
    requires Proper(p) && |content| <= MAX_UINT24 && conn == Framed(p, s, content).wire + tail
    ensures r == Opened(content) && rest == tail && s2 == Framed(p, s, content).side
  {
    ReceivedFramed(p, s, content, tail);
    r, s2, rest := ReadMsg(p, s, conn);
    FrameRoundTrip(p, s, content, tail);
  }

  /** The wire holds the frames of `coming`, which lead to state `last`. */
  ghost predicate Ahead(framing: Framing, s: Side, coming: seq<Msg>, conn: Bytes, tail: Bytes, last: Side)
  {
    conn == Stream(framing, s, coming).wire + tail && Stream(framing, s, coming).side == last
  }

  lemma AheadNext(framing: Framing, s: Side, coming: seq<Msg>, conn: Bytes, tail: Bytes, last: Side)
    returns (later: Bytes)
    requires coming != [] && Ahead(framing, s, coming, conn, tail, last)
    ensures conn == framing(s, coming[0]).wire + later
    ensures Ahead(framing, framing(s, coming[0]).side, coming[1..], later, tail, last)
  {
    var f := framing(s, coming[0]);
    var next := Stream(framing, f.side, coming[1..]).wire;
    Regroup(f.wire, next, tail);
    later := next + tail;
  }

  lemma AheadNone(framing: Framing, s: Side, conn: Bytes, tail: Bytes, last: Side)
    requires Ahead(framing, s, [], conn, tail, last)
    ensures conn == tail && s == last
  {
    assert [] + tail == tail;
  }

  lemma MoveOver(got: seq<Msg>, coming: seq<Msg>, ms: seq<Msg>)
    requires coming != [] && got + coming == ms
    ensures got + [coming[0]] + coming[1..] == ms
  {
    assert [coming[0]] + coming[1..] == coming;
  }

  /** A reader that starts in the writer's state reads back exactly what was written, and is in the
      writer's state after every frame. */
  method ReadAll(p: Secrets, s: Side, conn: Bytes, ghost ms: seq<Msg>, n: nat, ghost tail: Bytes)
    returns (got: seq<Msg>, s2: Side, rest: Bytes)
    requires Proper(p) && AllFit(ms) && n == |ms| && conn == Stream(FramingOf(p), s, ms).wire + tail
    ensures got == ms && s2 == Stream(FramingOf(p), s, ms).side && rest == tail
  {
    got, s2, rest := ReadEach(p, FramingOf(p), s, conn, ms, n, tail);
  }

  method ReadEach(p: Secrets, ghost framing: Framing, s: Side, conn: Bytes, ghost ms: seq<Msg>, n: nat,
                  ghost tail: Bytes)
    returns (got: seq<Msg>, s2: Side, rest: Bytes)
    requires Proper(p) && Frames(p, framing) && AllFit(ms) && n == |ms| && conn == Stream(framing, s, ms).wire + tail
    ensures got == ms && s2 == Stream(framing, s, ms).side && rest == tail
  {
    got, s2, rest := [], s, conn;
    ghost var coming, last := ms, Stream(framing, s, ms).side;
    for i := 0 to n
      invariant got + coming == ms && |coming| == n - i && AllFit(coming)
      invariant Ahead(framing, s2, coming, rest, tail, last)
    {
      MoveOver(got, coming, ms);
      ghost var later := AheadNext(framing, s2, coming, rest, tail, last);
      var m;
      m, s2, rest := ReadNext(p, framing, s2, rest, coming[0], later);
      got, coming := got + [m], coming[1..];
    }
    AheadNone(framing, s2, rest, tail, last);
  }
}
