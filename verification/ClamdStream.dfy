/** The INSTREAM framing sent to clamd: 4-byte big-endian length, payload, zero length at the end
    (internal/scan/clamd.go). */
module ClamdStream {
  import opened Util

  const CHUNK_SIZE: nat := 64 * 1024

  datatype Status = More | Eof | Broken

  /** One Read of the file: any number of bytes up to the buffer, possibly none, possibly with EOF. */
  datatype Read = Read(data: Bytes, status: Status)

  function PutUint32(n: nat): (b: Bytes)
    requires n < 0x1_0000_0000
    ensures |b| == 4
  {
    [n / 0x100_0000, n / 0x1_0000 % 256, n / 256 % 256, n % 256]
  }

  function Uint32(b: Bytes): nat
    requires |b| == 4
  {
    ((b[0] as int * 256 + b[1] as int) * 256 + b[2] as int) * 256 + b[3] as int
  }

  lemma Uint32RoundTrip(n: nat)
    requires n < 0x1_0000_0000
    ensures Uint32(PutUint32(n)) == n
  {
    var a, b := n / 256, n / 0x1_0000;
    assert b == a / 256 && n / 0x100_0000 == b / 256;
  }

  /** The length of a frame goes out with its most significant byte first: the last byte counts ones,
      and what stands before it counts the number's 256s in the same way. */
  lemma BigEndian(n: nat, ones: Byte)
    requires n < 0x100_0000
    ensures PutUint32(0) == [0, 0, 0, 0]
    ensures PutUint32(256 * n + ones as nat) == PutUint32(n)[1..] + [ones]
  {
    var m := 256 * n + ones as nat;
    assert m / 256 == n && m % 256 == ones as nat;
    assert m / 0x1_0000 == n / 256 && m / 0x100_0000 == n / 0x1_0000;
    assert n / 0x1_0000 < 256 && n / 0x1_0000 % 256 == n / 0x1_0000;
  }

  /** What one read puts on the wire. */
  function Frame(data: Bytes): Bytes
    requires |data| <= CHUNK_SIZE
  {
    if data == [] then [] else PutUint32(|data|) + data
  }

  /** The bytes delivered up to the first read that reports an end. */
  function Content(script: seq<Read>): Bytes {
    if script == [] then []
    else script[0].data + if script[0].status.More? then Content(script[1..]) else []
  }

  function Outcome(script: seq<Read>): Status {
    if script == [] then More
    else if script[0].status.More? then Outcome(script[1..]) else script[0].status
  }

  ghost predicate Small(script: seq<Read>) { forall r :: r in script ==> |r.data| <= CHUNK_SIZE }

  ghost function Frames(script: seq<Read>): Bytes
    requires Small(script)
  {
    if script == [] then []
    else Frame(script[0].data) + if script[0].status.More? then Frames(script[1..]) else []
  }

  ghost function Wire(script: seq<Read>): Bytes
    requires Small(script)
  {
    Frames(script) + PutUint32(0)
  }

  /** The receiving side: reassembles frames until the terminator; None if the stream ends first.
      The second component is what follows the terminator. */
  function Decode(s: Bytes): Option<(Bytes, Bytes)>
    decreases |s|
  {
    if |s| < 4 then None
    else
      var n := Uint32(s[..4]);
      if n == 0 then Some(([], s[4..]))
      else if |s| < 4 + n then None
      else
        match Decode(s[4 + n..])
        case None => None
        case Some(r) => Some((s[4..4 + n] + r.0, r.1))
  }

  lemma DecodeFrame(data: Bytes, s: Bytes)
    requires 0 < |data| <= CHUNK_SIZE
    ensures Decode(Frame(data) + s) ==
      match Decode(s) case None => None case Some(r) => Some((data + r.0, r.1))
  {
    var t := Frame(data) + s;
    Uint32RoundTrip(|data|);
    assert t[..4] == PutUint32(|data|);
    assert t[4..4 + |data|] == data && t[4 + |data|..] == s;
  }

  function Rest(script: seq<Read>): seq<Read>
    requires script != []
  {
    if script[0].status.More? then script[1..] else []
  }

  lemma WireUnfolds(script: seq<Read>, tail: Bytes)
    requires script != [] && Small(script)
    ensures Wire(script) + tail == Frame(script[0].data) + (Wire(Rest(script)) + tail)
    ensures Content(script) == script[0].data + Content(Rest(script))
  {
    assert Frames([]) == [];
    hide Frame, PutUint32;
    assert Frames(script) == Frame(script[0].data) + Frames(Rest(script));
    hide Frames;
  }

  /** Decoding the wire form gives the content back and stops exactly at its end, whatever the
      reader's split and whatever follows. */
  lemma {:induction false} WireRoundTrip(script: seq<Read>, tail: Bytes)
    requires Small(script)
    ensures Decode(Wire(script) + tail) == Some((Content(script), tail))
    decreases |script|
  {
    if script == [] {
    } else {
      var data, after := script[0].data, Wire(Rest(script)) + tail;
      assert Frame([]) + after == after;
      hide Decode, Wire, Content, Frame;
      WireRoundTrip(Rest(script), tail);
      WireUnfolds(script, tail);
      if data != [] { DecodeFrame(data, after); }
      assert data == [] ==> data + Content(Rest(script)) == Content(Rest(script));
    }
  }

  /** A stream that stops anywhere before its last byte never decodes: no data frame can be taken
      for the terminator, and a broken transfer is never taken for a whole one. */
  lemma {:induction false} CutNeverDecodes(script: seq<Read>, cut: Bytes)
    requires Small(script) && cut < Wire(script)
    ensures Decode(cut) == None
    decreases |script|
  {
    if script != [] {
      var r := script[0];
      var rest := Rest(script);
      var f := Frame(r.data);
      WireUnfolds(script, []);
      assert Wire(script) == f + Wire(rest);
      if |cut| < |f| {
        assert cut == f[..|cut|];
        if |cut| >= 4 {
          Uint32RoundTrip(|r.data|);
          assert cut[..4] == PutUint32(|r.data|);
        }
      } else {
        var c := cut[|f|..];
        assert cut == f + c && c < Wire(rest);
        CutNeverDecodes(rest, c);
        if r.data == [] { assert f + c == c; } else { DecodeFrame(r.data, c); }
      }
    }
  }

  /** A connection that takes at most room more bytes; a write beyond that sends what fits and fails. */
  class Connection {
    var sent: Bytes
    var room: nat

    constructor (room: nat)
      ensures sent == [] && this.room == room
    {
      sent, this.room := [], room;
    }

    method Write(data: Bytes) returns (ok: bool)
      modifies this
      ensures ok <==> |data| <= old(room)
      ensures sent == old(sent) + data[..Min(|data|, old(room))] && room == old(room) - Min(|data|, old(room))
    {
      var n := Min(|data|, room);
      sent, room := sent + data[..n], room - n;
      return n == |data|;
    }
  }

  lemma {:induction false} FramesSnoc(script: seq<Read>, i: nat)
    requires i < |script| && Small(script) && forall j :: 0 <= j < i ==> script[j].status.More?
    ensures Frames(script[..i + 1]) == Frames(script[..i]) + Frame(script[i].data)
    decreases i
  {
    hide Frame;
    if i == 0 {
      assert script[..1][1..] == [] && script[..0] == [];
    } else {
      var rest := script[1..];
      FramesSnoc(rest, i - 1);
      assert script[..i + 1][1..] == rest[..i] && script[..i][1..] == rest[..i - 1];
    }
  }

  /** Reading stops at the first read that reports an end. */
  lemma {:induction false} FramesEnd(script: seq<Read>, i: nat)
    requires i < |script| && Small(script) && forall j :: 0 <= j < i ==> script[j].status.More?
    requires !script[i].status.More?
    ensures Frames(script) == Frames(script[..i + 1]) && Outcome(script) == script[i].status
    decreases i
  {
    hide Frame;
    if i != 0 {
      FramesEnd(script[1..], i - 1);
      assert script[..i + 1][1..] == script[1..][..i];
    }
  }

  lemma {:induction false} FramesPrefix(script: seq<Read>, i: nat)
    requires i <= |script| && Small(script)
    ensures Frames(script[..i]) <= Frames(script)
    decreases i
  {
    if i != 0 {
      var rest := script[1..];
      FramesPrefix(rest, i - 1);
      assert script[..i][1..] == rest[..i - 1];
      hide Frame;
      PrefixUnder(Frame(script[0].data), Frames(rest[..i - 1]), Frames(rest));
    }
  }

  lemma PrefixUnder(a: Bytes, s: Bytes, t: Bytes)
    requires s <= t
    ensures a + s <= a + t
  {
    assert t == s + t[|s|..];
    assert a + t == a + s + t[|s|..];
  }

  /** Sends one read's bytes as a frame; a failure leaves a proper prefix of it. */
  method SendFrame(w: Connection, data: Bytes) returns (ok: bool)
    requires |data| <= CHUNK_SIZE
    modifies w
    ensures w.room + |w.sent| == old(w.room + |w.sent|)
    ensures ok <==> |Frame(data)| <= old(w.room)
    ensures ok ==> w.sent == old(w.sent) + Frame(data)
    ensures !ok ==> old(w.sent) <= w.sent < old(w.sent) + Frame(data)
  {
    hide PutUint32;
    ok := true;
    if |data| > 0 {
      ok := w.Write(PutUint32(|data|));
      if ok { ok := w.Write(data); }
    }
  }

  /** Streams the file. It succeeds exactly when the file was read to its end and the connection
      took the whole wire form; otherwise what was sent is a proper prefix of it. */
  method StreamChunks(w: Connection, script: seq<Read>) returns (ok: bool)
    requires Small(script) && (exists i :: 0 <= i < |script| && !script[i].status.More?) && w.sent == []
    modifies w
    ensures ok <==> Outcome(script) == Eof && |Wire(script)| <= old(w.room)
    ensures ok ==> w.sent == Wire(script) && Decode(w.sent) == Some((Content(script), []))
    ensures !ok ==> w.sent < Wire(script) && Decode(w.sent) == None
  {
    hide Frames, Frame, Decode, Outcome, Content, PutUint32;
    var i := 0;
    ghost var room, end, wire := w.room, PutUint32(0), Frames(script);
    ghost var last :| 0 <= last < |script| && !script[last].status.More?;
    FramesOfNone();
    while true
      invariant 0 <= i <= last && w.room + |w.sent| == room
      invariant forall j :: 0 <= j < i ==> script[j].status.More?
      invariant w.sent == Frames(script[..i])
      decreases |script| - i
    {
      var r := script[i];
      FramesSnoc(script, i);
      FramesPrefix(script, i + 1);
      if !r.status.More? { FramesEnd(script, i); }
      var sent := SendFrame(w, r.data);
      if !sent {
        CutNeverDecodes(script, w.sent);
        return false;
      }
      if r.status.Eof? { break; }
      if r.status.Broken? {
        CutNeverDecodes(script, w.sent);
        return false;
      }
      i := i + 1;
    }
    ok := w.Write(PutUint32(0));
    if ok {
      assert end[..4] == end;
      WireRoundTrip(script, []);
      assert Wire(script) + [] == Wire(script);
    } else {
      CutNeverDecodes(script, w.sent);
    }
  }

  lemma FramesOfNone()
    ensures Frames([]) == []
  {
  }
}
