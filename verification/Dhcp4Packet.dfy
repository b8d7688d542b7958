/**
 DHCPv4 packets (RFC 2131 section 2, options as in RFC 2132 section 2): the parser, the
 builder of replies, and what the one makes of the other's output.
 */
module Dhcp4Packet {
  import opened Wrappers
  import opened Addresses
  import opened Dhcp4

  const HEADER := 240
  const OP_REPLY: byte := 2
  const ETHERNET: byte := 1
  const COOKIE: seq<byte> := [0x63, 0x82, 0x53, 0x63]
  const PAD: byte := 0
  const END: byte := 255
  const MESSAGE_TYPE: byte := 53

  type Options = map<byte, seq<byte>>

  /** chaddr is None when the claimed hardware address is longer than its field. */
  datatype Packet = Packet(
    op: byte, htype: byte, hlen: byte, hops: byte, xid: seq<byte>, secs: int, flags: int,
    ciaddr: seq<byte>, yiaddr: seq<byte>, siaddr: seq<byte>, giaddr: seq<byte>,
    chaddr: Option<seq<byte>>, opts: Options)

  // ----------------------------------------------------------------------------
  // Parsing
  // ----------------------------------------------------------------------------

  /** Where the option list stops: at its end, at an end code, or at an option cut short. */
  predicate Stops(b: seq<byte>) {
    b == [] || b[0] == END || (b[0] != PAD && (|b| < 2 || 2 + b[1] > |b|))
  }

  /** The options of a list added to those read before; the last one of a code stays. */
  function ReadOptions(b: seq<byte>, seen: Options): Options {
    if Stops(b) then seen
    else if b[0] == PAD then ReadOptions(b[1..], seen)
    else ReadOptions(b[2 + b[1]..], seen[b[0] := b[2..2 + b[1]]])
  }

  function Word(hi: int, lo: int): int {
    256 * hi + lo
  }

  predicate WellFormed(b: seq<byte>) {
    |b| >= HEADER && b[236..HEADER] == COOKIE
  }

  function Parsed(b: seq<byte>): Packet
    requires WellFormed(b)
  {
    Packet(b[0], b[1], b[2], b[3], b[4..8], Word(b[8], b[9]), Word(b[10], b[11]),
      b[12..16], b[16..20], b[20..24], b[24..28],
      if b[2] <= 16 then Some(b[28..28 + b[2]]) else None,
      ReadOptions(b[HEADER..], map[]))
  }

  /** Every byte string is parsed or refused without reading beyond its end. */
  method Parse(b: seq<byte>) returns (r: Option<Packet>)
    ensures r == if WellFormed(b) then Some(Parsed(b)) else None
  {
    if |b| < HEADER {
      return None;
    }
    if b[236..240] != COOKIE {
      return None;
    }
    var chaddr := None;
    if b[2] <= 16 {
      chaddr := Some(b[28..28 + b[2]]);
    }
    var opts := ParseOptions(b[240..]);
    r := Some(Packet(b[0], b[1], b[2], b[3], b[4..8], Word(b[8], b[9]), Word(b[10], b[11]),
      b[12..16], b[16..20], b[20..24], b[24..28], chaddr, opts));
  }

  method ParseOptions(opts: seq<byte>) returns (seen: Options)
    ensures seen == ReadOptions(opts, map[])
  {
    seen := map[];
    var i := 0;
    while i < |opts|
      invariant 0 <= i <= |opts|
      invariant ReadOptions(opts, map[]) == ReadOptions(opts[i..], seen)
    {
      ghost var tail := opts[i..];
      var code := opts[i];
      i := i + 1;
      if code == 255 {
        return;
      }
      if code == 0 {
        assert tail[1..] == opts[i..];
        continue;
      }
      if i >= |opts| {
        return;
      }
      var l := opts[i];
      i := i + 1;
      if i + l > |opts| {
        return;
      }
      assert tail[2..2 + l] == opts[i..i + l] && tail[2 + l..] == opts[i + l..];
      seen := seen[code := opts[i..i + l]];
      i := i + l;
    }
  }

  /** What a parsed list can contain: no pad or end code, and no value over 255 bytes. */
  predicate Expressible(opts: Options) {
    PAD !in opts && END !in opts && forall c :: c in opts ==> |opts[c]| <= 255
  }

  lemma {:induction false} ReadIsExpressible(b: seq<byte>, seen: Options)
    requires Expressible(seen)
    ensures Expressible(ReadOptions(b, seen))
    decreases |b|
  {
    if !Stops(b) {
      if b[0] == PAD {
        ReadIsExpressible(b[1..], seen);
      } else {
        ReadIsExpressible(b[2 + b[1]..], seen[b[0] := b[2..2 + b[1]]]);
      }
    }
  }

  // ----------------------------------------------------------------------------
  // Building
  // ----------------------------------------------------------------------------

  /** One option; the length is cut down to a byte. */
  function OptionBytes(code: byte, val: seq<byte>): seq<byte> {
    [code, |val| % 256] + val
  }

  /** The options in the order in which the map is walked, without the message type. */
  function OptionList(opts: Options, order: seq<byte>): seq<byte>
    requires forall c :: c in order ==> c in opts
  {
    if order == [] then []
    else
      (if order[0] == MESSAGE_TYPE then [] else OptionBytes(order[0], opts[order[0]])) + OptionList(opts, order[1..])
  }

  function Zeros(n: nat): seq<byte> {
    seq(n, _ => 0)
  }

  /** s with src copied over its elements from `at` on. */
  function Patched(s: seq<byte>, at: nat, src: seq<byte>): (r: seq<byte>)
    requires at + |src| <= |s|
    ensures |r| == |s|
  {
    s[..at] + src + s[at + |src|..]
  }

  function Hardware(chaddr: Option<seq<byte>>): (r: seq<byte>)
    ensures |r| <= 16
  {
    if chaddr.None? then [] else if |chaddr.value| <= 16 then chaddr.value else chaddr.value[..16]
  }

  /** An address that is missing leaves its field as it is. */
  function Bytes(ip: Option<IPv4>): (r: seq<byte>)
    ensures |r| <= 4
  {
    if ip.Some? then ip.value else []
  }

  function Header(
      xid: IPv4, giaddr: IPv4, chaddr: Option<seq<byte>>, yourIp: Option<IPv4>, serverIp: Option<IPv4>): (r: seq<byte>)
    ensures |r| == HEADER
  {
    var b0 := Patched(Zeros(HEADER), 0, [OP_REPLY, ETHERNET, 6, 0]);
    var b1 := Patched(b0, 4, xid);
    var b2 := Patched(b1, 16, Bytes(yourIp));
    var b3 := Patched(b2, 20, Bytes(serverIp));
    var b4 := Patched(b3, 24, giaddr);
    var b5 := Patched(b4, 28, Hardware(chaddr));
    Patched(b5, 236, COOKIE)
  }

  function Built(
      req: Packet, msgType: byte, yourIp: Option<IPv4>, serverIp: Option<IPv4>, opts: Options, order: seq<byte>)
      : seq<byte>
    requires |req.xid| == 4 && |req.giaddr| == 4
    requires forall c :: c in order ==> c in opts
  {
    Header(req.xid, req.giaddr, req.chaddr, yourIp, serverIp)
    + (OptionBytes(MESSAGE_TYPE, [msgType]) + OptionList(opts, order) + [END])
  }

  method CopyInto(b: array<byte>, at: nat, src: seq<byte>)
    requires at + |src| <= b.Length
    modifies b
    ensures b[..] == Patched(old(b[..]), at, src)
  {
    ghost var was := b[..];
    var i := 0;
    while i < |src|
      invariant 0 <= i <= |src|
      invariant forall j :: 0 <= j < b.Length ==> b[j] == if at <= j < at + i then src[j - at] else was[j]
    {
      b[at + i] := src[i];
      i := i + 1;
    }
    assert b[..] == Patched(was, at, src);
  }

  lemma ListStep(opts: Options, order: seq<byte>, i: nat, o: seq<byte>)
    requires i < |order| && forall c :: c in order ==> c in opts
    ensures o + OptionList(opts, order[i..]) ==
      (if order[i] == MESSAGE_TYPE then o else o + OptionBytes(order[i], opts[order[i]]))
      + OptionList(opts, order[i + 1..])
  {
    assert order[i..][1..] == order[i + 1..];
  }

  method BuildOptions(msgType: byte, opts: Options, order: seq<byte>) returns (o: seq<byte>)
    requires forall c :: c in order ==> c in opts
    ensures o == OptionBytes(MESSAGE_TYPE, [msgType]) + OptionList(opts, order) + [END]
  {
    o := OptionBytes(53, [msgType]);
    ghost var all := o + OptionList(opts, order);
    var i := 0;
    assert order[i..] == order;
    while i < |order|
      invariant 0 <= i <= |order|
      invariant all == o + OptionList(opts, order[i..])
    {
      ListStep(opts, order, i, o);
      if order[i] != 53 {
        o := o + OptionBytes(order[i], opts[order[i]]);
      }
      i := i + 1;
    }
    assert order[i..] == [];
    o := o + [255];
  }

  method BuildHeader(b: array<byte>, req: Packet, yourIp: Option<IPv4>, serverIp: Option<IPv4>)
    requires |req.xid| == 4 && |req.giaddr| == 4
    requires b[..] == Zeros(HEADER)
    modifies b
    ensures b[..] == Header(req.xid, req.giaddr, req.chaddr, yourIp, serverIp)
  {
    CopyInto(b, 0, [OP_REPLY, ETHERNET, 6, 0]);
    CopyInto(b, 4, req.xid);
    CopyInto(b, 16, Bytes(yourIp));
    CopyInto(b, 20, Bytes(serverIp));
    CopyInto(b, 24, req.giaddr);
    CopyInto(b, 28, Hardware(req.chaddr));
    CopyInto(b, 236, COOKIE);
  }

  method Build(
      req: Packet, msgType: byte, yourIp: Option<IPv4>, serverIp: Option<IPv4>, opts: Options, order: seq<byte>)
    returns (r: seq<byte>)
    requires |req.xid| == 4 && |req.giaddr| == 4
    requires forall c :: c in order ==> c in opts
    ensures r == Built(req, msgType, yourIp, serverIp, opts, order)
  {
    var b := new byte[HEADER](_ => 0);
    assert b[..] == Zeros(HEADER);
    BuildHeader(b, req, yourIp, serverIp);
    var o := BuildOptions(msgType, opts, order);
    r := b[..] + o;
  }

  // ----------------------------------------------------------------------------
  // Round trip
  // ----------------------------------------------------------------------------

  lemma ReadOne(code: byte, val: seq<byte>, rest: seq<byte>, seen: Options)
    requires code != PAD && code != END && |val| <= 255
    ensures ReadOptions(OptionBytes(code, val) + rest, seen) == ReadOptions(rest, seen[code := val])
  {
    var b := OptionBytes(code, val) + rest;
    assert b[2..2 + b[1]] == val && b[2 + b[1]..] == rest;
  }

  /** The options an order lists, without the message type. */
  function Chosen(opts: Options, order: seq<byte>): Options
    requires forall c :: c in order ==> c in opts
  {
    map c | c in order && c != MESSAGE_TYPE :: opts[c]
  }

  lemma ChosenCons(opts: Options, order: seq<byte>, seen: Options)
    requires order != [] && forall c :: c in order ==> c in opts
    ensures var c := order[0];
      seen + Chosen(opts, order) ==
        (if c == MESSAGE_TYPE then seen else seen[c := opts[c]]) + Chosen(opts, order[1..])
  {
    assert order == [order[0]] + order[1..];
  }

  lemma ReadCons(code: byte, val: seq<byte>, list: seq<byte>, seen: Options)
    requires code != PAD && code != END && |val| <= 255
    ensures ReadOptions(OptionBytes(code, val) + list + [END], seen) == ReadOptions(list + [END], seen[code := val])
  {
    ReadOne(code, val, list + [END], seen);
    assert OptionBytes(code, val) + list + [END] == OptionBytes(code, val) + (list + [END]);
  }

  lemma {:induction false} ReadList(opts: Options, order: seq<byte>, seen: Options)
    requires forall c :: c in order ==> c in opts
    requires Expressible(opts - {MESSAGE_TYPE})
    ensures ReadOptions(OptionList(opts, order) + [END], seen) == seen + Chosen(opts, order)
  {
    if order == [] {
      assert OptionList(opts, order) + [END] == [END];
      assert seen + Chosen(opts, order) == seen;
    } else {
      var c := order[0];
      ChosenCons(opts, order, seen);
      if c == MESSAGE_TYPE {
        ReadList(opts, order[1..], seen);
        assert OptionList(opts, order) == OptionList(opts, order[1..]);
      } else {
        assert c in opts - {MESSAGE_TYPE};
        ReadList(opts, order[1..], seen[c := opts[c]]);
        ReadCons(c, opts[c], OptionList(opts, order[1..]), seen);
      }
    }
  }

  /**
   Whatever order the map is walked in, parsing recovers the options with the message type
   put in, exactly when they are expressible: no code 0 or 255, no value over 255 bytes.
   */
  lemma OptionsRoundTripIff(msgType: byte, opts: Options, order: seq<byte>)
    requires forall c :: c in order <==> c in opts
    ensures
      ReadOptions(OptionBytes(MESSAGE_TYPE, [msgType]) + OptionList(opts, order) + [END], map[])
      == opts[MESSAGE_TYPE := [msgType]]
      <==> Expressible(opts - {MESSAGE_TYPE})
  {
    var list := OptionList(opts, order) + [END];
    var b := OptionBytes(MESSAGE_TYPE, [msgType]) + list;
    assert OptionBytes(MESSAGE_TYPE, [msgType]) + OptionList(opts, order) + [END] == b;
    ReadIsExpressible(b, map[]);
    if Expressible(opts - {MESSAGE_TYPE}) {
      ReadOne(MESSAGE_TYPE, [msgType], list, map[]);
      ReadList(opts, order, map[MESSAGE_TYPE := [msgType]]);
      assert map[MESSAGE_TYPE := [msgType]] + Chosen(opts, order) == opts[MESSAGE_TYPE := [msgType]];
    } else {
      var back := opts[MESSAGE_TYPE := [msgType]];
      assert forall c :: c in opts - {MESSAGE_TYPE} ==> c in back && back[c] == opts[c];
    }
  }

  lemma PatchedAt(s: seq<byte>, at: nat, src: seq<byte>)
    requires at + |src| <= |s|
    ensures Patched(s, at, src)[..at] == s[..at]
    ensures Patched(s, at, src)[at..at + |src|] == src
  {
  }

  lemma SamePrefix(a: seq<byte>, b: seq<byte>, n: nat, lo: nat, hi: nat)
    requires n <= |a| && n <= |b| && a[..n] == b[..n] && lo <= hi <= n
    ensures a[lo..hi] == b[lo..hi]
  {
    assert a[lo..hi] == a[..n][lo..hi] && b[lo..hi] == b[..n][lo..hi];
  }

  /** The fields lie in ascending order, so no later copy touches an earlier field. */
  lemma HeaderFields(xid: IPv4, giaddr: IPv4, chaddr: Option<seq<byte>>, yourIp: IPv4, serverIp: IPv4)
    ensures
      var h := Header(xid, giaddr, chaddr, Some(yourIp), Some(serverIp));
      && h[0..4] == [OP_REPLY, ETHERNET, 6, 0] && h[4..8] == xid
      && h[16..20] == yourIp && h[20..24] == serverIp && h[24..28] == giaddr
      && h[28..28 + |Hardware(chaddr)|] == Hardware(chaddr) && h[236..HEADER] == COOKIE
  {
    var b0 := Patched(Zeros(HEADER), 0, [OP_REPLY, ETHERNET, 6, 0]);
    var b1 := Patched(b0, 4, xid);
    var b2 := Patched(b1, 16, yourIp);
    var b3 := Patched(b2, 20, serverIp);
    var b4 := Patched(b3, 24, giaddr);
    var b5 := Patched(b4, 28, Hardware(chaddr));
    var h := Patched(b5, 236, COOKIE);
    PatchedAt(Zeros(HEADER), 0, [OP_REPLY, ETHERNET, 6, 0]);
    PatchedAt(b0, 4, xid);
    PatchedAt(b1, 16, yourIp);
    PatchedAt(b2, 20, serverIp);
    PatchedAt(b3, 24, giaddr);
    PatchedAt(b4, 28, Hardware(chaddr));
    PatchedAt(b5, 236, COOKIE);
    SamePrefix(h, b5, 236, 0, 28);
    SamePrefix(h, b5, 236, 28, 28 + |Hardware(chaddr)|);
    assert h[..28] == b4[..28];
    SamePrefix(b4, b3, 24, 0, 24);
    SamePrefix(b3, b2, 20, 0, 20);
    SamePrefix(b2, b1, 16, 0, 16);
    SamePrefix(b1, b0, 4, 0, 4);
    SamePrefix(h, b4, 28, 24, 28);
    assert h[..24] == b3[..24];
    SamePrefix(h, b3, 24, 20, 24);
    assert h[..20] == b2[..20];
    SamePrefix(h, b2, 20, 16, 20);
    assert h[..16] == b1[..16];
    SamePrefix(h, b1, 16, 4, 8);
    assert h[..4] == b0[..4];
    SamePrefix(h, b0, 4, 0, 4);
  }

  function Filled(ip: Option<IPv4>): IPv4 {
    if ip.Some? then ip.value else [0, 0, 0, 0]
  }

  lemma PatchZeros(s: seq<byte>, at: nat, ip: Option<IPv4>)
    requires at + 4 <= |s| && forall i :: at <= i < at + 4 ==> s[i] == 0
    ensures Patched(s, at, Bytes(ip)) == Patched(s, at, Filled(ip))
    ensures forall i :: at + 4 <= i < |s| ==> Patched(s, at, Filled(ip))[i] == s[i]
  {
    if ip.None? {
      assert s[at..at + 4] == [0, 0, 0, 0];
      assert s == s[..at] + s[at..at + 4] + s[at + 4..];
    }
  }

  /** A missing address reads as 0.0.0.0. */
  lemma MissingIsZero(xid: IPv4, giaddr: IPv4, chaddr: Option<seq<byte>>, yourIp: Option<IPv4>, serverIp: Option<IPv4>)
    ensures Header(xid, giaddr, chaddr, yourIp, serverIp) ==
      Header(xid, giaddr, chaddr, Some(Filled(yourIp)), Some(Filled(serverIp)))
  {
    var b1 := Patched(Patched(Zeros(HEADER), 0, [OP_REPLY, ETHERNET, 6, 0]), 4, xid);
    assert forall i :: 8 <= i < HEADER ==> b1[i] == 0;
    PatchZeros(b1, 16, yourIp);
    PatchZeros(Patched(b1, 16, Filled(yourIp)), 20, serverIp);
  }

  /**
   Parsing a reply recovers the transaction id and the addresses, the options exactly when
   they are expressible, and the hardware address exactly when it is six bytes long.
   */
  lemma ReplyRoundTrip(
    req: Packet, msgType: byte, yourIp: Option<IPv4>, serverIp: Option<IPv4>, opts: Options, order: seq<byte>)
    requires |req.xid| == 4 && |req.giaddr| == 4
    requires forall c :: c in order <==> c in opts
    ensures
      var b := Built(req, msgType, yourIp, serverIp, opts, order);
      && WellFormed(b)
      && Parsed(b).op == OP_REPLY && Parsed(b).xid == req.xid
      && Parsed(b).yiaddr == Filled(yourIp) && Parsed(b).siaddr == Filled(serverIp) && Parsed(b).giaddr == req.giaddr
      && (Parsed(b).opts == opts[MESSAGE_TYPE := [msgType]] <==> Expressible(opts - {MESSAGE_TYPE}))
      && (Parsed(b).chaddr == req.chaddr <==> req.chaddr.Some? && |req.chaddr.value| == 6)
  {
    var h := Header(req.xid, req.giaddr, req.chaddr, yourIp, serverIp);
    var o := OptionBytes(MESSAGE_TYPE, [msgType]) + OptionList(opts, order) + [END];
    var b := Built(req, msgType, yourIp, serverIp, opts, order);
    MissingIsZero(req.xid, req.giaddr, req.chaddr, yourIp, serverIp);
    HeaderFields(req.xid, req.giaddr, req.chaddr, Filled(yourIp), Filled(serverIp));
    OptionsRoundTripIff(msgType, opts, order);
    HeaderOf(h, o);
    assert h[..4][2] == 6;
  }

  lemma HeaderOf(h: seq<byte>, o: seq<byte>)
    requires |h| == HEADER && h[0..4] == [OP_REPLY, ETHERNET, 6, 0] && h[236..HEADER] == COOKIE
    ensures WellFormed(h + o)
    ensures var p := Parsed(h + o);
      && p.op == OP_REPLY && p.hlen == 6 && p.xid == h[4..8] && p.yiaddr == h[16..20] && p.siaddr == h[20..24]
      && p.giaddr == h[24..28] && p.chaddr == Some(h[28..34]) && p.opts == ReadOptions(o, map[])
  {
    var b := h + o;
    assert b[236..HEADER] == COOKIE && b[HEADER..] == o;
    assert b[0] == h[0..4][0] && b[2] == h[0..4][2];
    assert b[4..8] == h[4..8] && b[16..20] == h[16..20] && b[20..24] == h[20..24] && b[24..28] == h[24..28];
    assert b[28..34] == h[28..34];
  }

  // ----------------------------------------------------------------------------
  // What clients send
  // ----------------------------------------------------------------------------

  /** The fixed part of a message, field after field (RFC 2131 section 2). */
  function Fixed(
      kind: seq<byte>, xid: seq<byte>, secs: seq<byte>, flags: seq<byte>, ciaddr: IPv4, yiaddr: IPv4, siaddr: IPv4,
      giaddr: IPv4, chaddr: seq<byte>, sname: seq<byte>, file: seq<byte>): seq<byte>
  {
    kind + xid + secs + flags + ciaddr + yiaddr + siaddr + giaddr + chaddr + sname + file + COOKIE
  }

  /** One option after the other, each with its code and length; pads may stand in front of each. */
  datatype Sent = Sent(pads: nat, code: byte, val: seq<byte>)

  function Pads(n: nat): seq<byte> {
    seq(n, _ => PAD)
  }

  function Coded(o: Sent): seq<byte>
    requires |o.val| <= 255
  {
    var n: byte := |o.val|;
    Pads(o.pads) + [o.code, n] + o.val
  }

  predicate Sendable(list: seq<Sent>) {
    forall i :: 0 <= i < |list| ==> |list[i].val| <= 255 && list[i].code != 0 && list[i].code != 255
  }

  function SentBytes(list: seq<Sent>): seq<byte>
    requires Sendable(list)
  {
    if list == [] then [255] else Coded(list[0]) + SentBytes(list[1..])
  }

  lemma {:induction false} PadsAreSkipped(n: nat, rest: seq<byte>, seen: Options)
    ensures ReadOptions(Pads(n) + rest, seen) == ReadOptions(rest, seen)
  {
    if n == 0 {
      assert Pads(0) + rest == rest;
    } else {
      assert (Pads(n) + rest)[1..] == Pads(n - 1) + rest;
      PadsAreSkipped(n - 1, rest, seen);
    }
  }

  lemma OptionIsRead(o: Sent, rest: seq<byte>, seen: Options)
    requires |o.val| <= 255 && o.code != 0 && o.code != 255
    ensures ReadOptions(Coded(o) + rest, seen) == ReadOptions(rest, seen[o.code := o.val])
  {
    var n: byte := |o.val|;
    var b := [o.code, n] + o.val + rest;
    PadsAreSkipped(o.pads, b, seen);
    assert Coded(o) + rest == Pads(o.pads) + b;
    assert b[2..2 + n] == o.val && b[2 + n..] == rest;
  }

  ghost predicate IsLast(list: seq<Sent>, i: int, c: byte) {
    0 <= i < |list| && list[i].code == c && forall j :: i < j < |list| ==> list[j].code != c
  }

  ghost predicate IsSent(list: seq<Sent>, c: byte) {
    exists i :: 0 <= i < |list| && list[i].code == c
  }

  lemma SentStep(list: seq<Sent>, behind: seq<byte>, seen: Options)
    requires Sendable(list) && list != []
    ensures ReadOptions(SentBytes(list) + behind, seen)
      == ReadOptions(SentBytes(list[1..]) + behind, seen[list[0].code := list[0].val])
  {
    OptionIsRead(list[0], SentBytes(list[1..]) + behind, seen);
    assert SentBytes(list) + behind == Coded(list[0]) + (SentBytes(list[1..]) + behind);
  }

  /** Of each code sent the last value is read, whatever stands behind the end code. */
  lemma {:induction false} SentIsRead(list: seq<Sent>, behind: seq<byte>, seen: Options, i: nat)
    requires Sendable(list) && i < |list| && IsLast(list, i, list[i].code)
    ensures var got := ReadOptions(SentBytes(list) + behind, seen);
      list[i].code in got && got[list[i].code] == list[i].val
  {
    SentStep(list, behind, seen);
    var o, rest := list[0], list[1..];
    if i > 0 {
      SentIsRead(rest, behind, seen[o.code := o.val], i - 1);
    } else {
      assert !IsSent(rest, o.code);
      UnsentStays(rest, behind, seen[o.code := o.val], o.code);
    }
  }

  /** A code that is not sent is not read. */
  lemma {:induction false} UnsentStays(list: seq<Sent>, behind: seq<byte>, seen: Options, c: byte)
    requires Sendable(list) && !IsSent(list, c)
    ensures var got := ReadOptions(SentBytes(list) + behind, seen);
      (c in got <==> c in seen) && (c in seen ==> got[c] == seen[c])
  {
    if list != [] {
      SentStep(list, behind, seen);
      assert list[0].code != c;
      UnsentStays(list[1..], behind, seen[list[0].code := list[0].val], c);
    }
  }

  /**
   A message laid out field after field is parsed into its fields: the hardware address is as
   many bytes of its field as the message says, and missing if that is more than there are.
   */
  lemma MessageIsRead(
      op: byte, htype: byte, hlen: byte, hops: byte, xid: seq<byte>, secs: seq<byte>, flags: seq<byte>,
      ciaddr: IPv4, yiaddr: IPv4, siaddr: IPv4, giaddr: IPv4, chaddr: seq<byte>, sname: seq<byte>, file: seq<byte>,
      opts: seq<byte>)
    requires |xid| == 4 && |secs| == 2 && |flags| == 2 && |chaddr| == 16 && |sname| == 64 && |file| == 128
    ensures
      var kind := [op, htype, hlen, hops];
      var b := Fixed(kind, xid, secs, flags, ciaddr, yiaddr, siaddr, giaddr, chaddr, sname, file) + opts;
      && WellFormed(b)
      && var p := Parsed(b);
      && p.op == op && p.htype == htype && p.hlen == hlen && p.hops == hops && p.xid == xid
      && p.secs == 256 * (secs[0] as int) + secs[1] && p.flags == 256 * (flags[0] as int) + flags[1]
      && p.ciaddr == ciaddr && p.yiaddr == yiaddr && p.siaddr == siaddr && p.giaddr == giaddr
      && (hlen <= 16 ==> p.chaddr == Some(chaddr[..hlen])) && (hlen > 16 ==> p.chaddr == None)
      && p.opts == ReadOptions(opts, map[])
  {
    var kind := [op, htype, hlen, hops];
    var front := kind + xid + secs + flags + ciaddr + yiaddr + siaddr + giaddr;
    var h := Fixed(kind, xid, secs, flags, ciaddr, yiaddr, siaddr, giaddr, chaddr, sname, file);
    var b := h + opts;
    FrontFields(kind, xid, secs, flags, ciaddr, yiaddr, siaddr, giaddr);
    assert h == front + (chaddr + sname + file + COOKIE);
    assert |front| == 28 && b[..28] == front;
    assert b[28..44] == chaddr && b[236..240] == COOKIE && b[240..] == opts;
    SliceOfPrefix(b, front);
    if hlen <= 16 { assert b[28..28 + hlen] == b[28..44][..hlen]; }
  }

  lemma FrontFields(
      kind: seq<byte>, xid: seq<byte>, secs: seq<byte>, flags: seq<byte>, ciaddr: IPv4, yiaddr: IPv4, siaddr: IPv4,
      giaddr: IPv4)
    requires |kind| == 4 && |xid| == 4 && |secs| == 2 && |flags| == 2
    ensures var f := kind + xid + secs + flags + ciaddr + yiaddr + siaddr + giaddr;
      && |f| == 28 && f[..4] == kind && f[4..8] == xid && f[8..10] == secs && f[10..12] == flags
      && f[12..16] == ciaddr && f[16..20] == yiaddr && f[20..24] == siaddr && f[24..28] == giaddr
  {
  }

  lemma SliceOfPrefix(b: seq<byte>, front: seq<byte>)
    requires |front| == 28 && |b| >= 28 && b[..28] == front
    ensures b[0] == front[..4][0] && b[1] == front[..4][1] && b[2] == front[..4][2] && b[3] == front[..4][3]
    ensures b[4..8] == front[4..8] && b[8] == front[8..10][0] && b[9] == front[8..10][1]
    ensures b[10] == front[10..12][0] && b[11] == front[10..12][1] && b[12..16] == front[12..16]
    ensures b[16..20] == front[16..20] && b[20..24] == front[20..24] && b[24..28] == front[24..28]
  {
    assert forall i, j :: 0 <= i <= j <= 28 ==> b[i..j] == front[i..j];
  }
}
