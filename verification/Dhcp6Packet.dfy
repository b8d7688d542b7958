/**
 DHCPv6 messages (RFC 8415 section 8, options as in section 21.1): the parser, in which
 the first occurrence of an option wins, and the builder.
 */
module Dhcp6Packet {
  import opened Wrappers
  import opened Addresses

  type Code = x: int | 0 <= x < 65536

  type Options = map<Code, seq<byte>>

  datatype Packet = Packet(msgType: byte, xid: seq<byte>, opts: Options)

  datatype Opt = Opt(code: Code, val: seq<byte>)

  function Word(hi: byte, lo: byte): Code {
    256 * (hi as int) + lo
  }

  // ----------------------------------------------------------------------------
  // Parsing
  // ----------------------------------------------------------------------------

  function First(seen: Options, code: Code, val: seq<byte>): Options {
    if code in seen then seen else seen[code := val]
  }

  /** Where the option list stops: no room for a header, or for the value it announces. */
  predicate Stops(b: seq<byte>) {
    |b| < 4 || 4 + Word(b[2], b[3]) > |b|
  }

  function ReadOptions(b: seq<byte>, seen: Options): Options {
    if Stops(b) then seen
    else
      var end := 4 + Word(b[2], b[3]);
      ReadOptions(b[end..], First(seen, Word(b[0], b[1]), b[4..end]))
  }

  function Parsed(b: seq<byte>): Option<Packet> {
    if |b| < 4 then None else Some(Packet(b[0], b[1..4], ReadOptions(b[4..], map[])))
  }

  method ParseOptions(opts: seq<byte>) returns (seen: Options)
    ensures seen == ReadOptions(opts, map[])
  {
    seen := map[];
    var i := 0;
    while i + 4 <= |opts|
      invariant 0 <= i <= |opts|
      invariant ReadOptions(opts, map[]) == ReadOptions(opts[i..], seen)
    {
      ghost var tail := opts[i..];
      var code := Word(opts[i], opts[i + 1]);
      var l := Word(opts[i + 2], opts[i + 3]);
      i := i + 4;
      if i + l > |opts| {
        return;
      }
      assert tail[4..4 + l] == opts[i..i + l] && tail[4 + l..] == opts[i + l..];
      if code !in seen {
        seen := seen[code := opts[i..i + l]];
      }
      i := i + l;
    }
  }

  /** Every byte string is parsed or refused without reading beyond its end. */
  method Parse(b: seq<byte>) returns (r: Option<Packet>)
    ensures r == Parsed(b)
  {
    if |b| < 4 {
      return None;
    }
    var opts := ParseOptions(b[4..]);
    r := Some(Packet(b[0], b[1..4], opts));
  }

  // ----------------------------------------------------------------------------
  // Building
  // ----------------------------------------------------------------------------

  /** One option appended; its length is cut down to sixteen bits. */
  function Append(b: seq<byte>, o: Opt): seq<byte> {
    b + [o.code / 256, o.code % 256, |o.val| % 65536 / 256, |o.val| % 256] + o.val
  }

  function List(opts: seq<Opt>): seq<byte> {
    if opts == [] then [] else Append([], opts[0]) + List(opts[1..])
  }

  function Built(msgType: byte, xid: seq<byte>, list: seq<byte>): seq<byte> {
    [msgType] + xid + list
  }

  predicate Fits(o: Opt) {
    |o.val| < 65536
  }

  /** For each code the value of its first option. */
  function Firsts(opts: seq<Opt>, seen: Options): Options {
    if opts == [] then seen else Firsts(opts[1..], First(seen, opts[0].code, opts[0].val))
  }

  // ----------------------------------------------------------------------------
  // Round trip
  // ----------------------------------------------------------------------------

  lemma ReadOne(o: Opt, rest: seq<byte>, seen: Options)
    requires Fits(o)
    ensures ReadOptions(Append([], o) + rest, seen) == ReadOptions(rest, First(seen, o.code, o.val))
  {
    var b := Append([], o) + rest;
    assert b[0] == o.code / 256 && b[1] == o.code % 256;
    assert b[2] == |o.val| / 256 && b[3] == |o.val| % 256;
    assert Word(b[2], b[3]) == |o.val|;
    assert b[4..4 + |o.val|] == o.val && b[4 + |o.val|..] == rest;
  }

  lemma {:induction false} ReadList(opts: seq<Opt>, seen: Options)
    requires forall o :: o in opts ==> Fits(o)
    ensures ReadOptions(List(opts), seen) == Firsts(opts, seen)
  {
    if opts != [] {
      ReadOne(opts[0], List(opts[1..]), seen);
      ReadList(opts[1..], First(seen, opts[0].code, opts[0].val));
    }
  }

  /** Parsing a built message recovers it, with the first option of each code. */
  lemma RoundTrip(msgType: byte, xid: seq<byte>, opts: seq<Opt>)
    requires |xid| == 3 && forall o :: o in opts ==> Fits(o)
    ensures Parsed(Built(msgType, xid, List(opts))) == Some(Packet(msgType, xid, Firsts(opts, map[])))
  {
    var b := Built(msgType, xid, List(opts));
    assert b[1..4] == xid && b[4..] == List(opts);
    ReadList(opts, map[]);
  }

  ghost predicate ShortValues(opts: Options) {
    forall c :: c in opts ==> |opts[c]| < 65536
  }

  lemma {:induction false} ReadIsShort(b: seq<byte>, seen: Options)
    requires ShortValues(seen)
    ensures ShortValues(ReadOptions(b, seen))
    decreases |b|
  {
    if !Stops(b) {
      var end := 4 + Word(b[2], b[3]);
      ReadIsShort(b[end..], First(seen, Word(b[0], b[1]), b[4..end]));
    }
  }

  ghost predicate DistinctCodes(opts: seq<Opt>) {
    forall i, j :: 0 <= i < j < |opts| ==> opts[i].code != opts[j].code
  }

  lemma {:induction false} FirstsKeep(opts: seq<Opt>, seen: Options)
    requires DistinctCodes(opts)
    ensures forall c :: c in seen ==> c in Firsts(opts, seen) && Firsts(opts, seen)[c] == seen[c]
    ensures forall i :: 0 <= i < |opts| && opts[i].code !in seen ==>
      opts[i].code in Firsts(opts, seen) && Firsts(opts, seen)[opts[i].code] == opts[i].val
  {
    if opts != [] {
      var seen' := First(seen, opts[0].code, opts[0].val);
      FirstsKeep(opts[1..], seen');
      forall i | 0 <= i < |opts| && opts[i].code !in seen
        ensures opts[i].code in Firsts(opts, seen) && Firsts(opts, seen)[opts[i].code] == opts[i].val
      {
        if i > 0 { assert opts[1..][i - 1] == opts[i]; }
      }
    }
  }

  /** With distinct codes the options come back exactly when every value is under 64 KiB. */
  lemma OptionsRoundTripIff(opts: seq<Opt>)
    requires DistinctCodes(opts)
    ensures ReadOptions(List(opts), map[]) == Firsts(opts, map[]) <==> forall o :: o in opts ==> Fits(o)
  {
    ReadIsShort(List(opts), map[]);
    FirstsKeep(opts, map[]);
    if forall o :: o in opts ==> Fits(o) {
      ReadList(opts, map[]);
    }
  }
}
