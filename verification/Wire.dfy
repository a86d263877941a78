/** The message between the two demo scripts: 32-bit big-endian integers without a count, a port and then
    loads, where the end of the connection stands for zeros. */
module Wire {
  import opened CStrings

  type Byte = b: int | 0 <= b < 256
  const HALF := 0x8000_0000
  const WHOLE := 0x1_0000_0000

  predicate Fits(v: int) { -HALF <= v < HALF }

  /** `struct.pack("!i", v)` */
  function Pack(v: int): (bs: seq<Byte>)
    requires Fits(v)
    ensures |bs| == 4
  {
    var u := if v < 0 then v + WHOLE else v;
    [u / 0x100_0000, u / 0x1_0000 % 256, u / 0x100 % 256, u % 256]
  }

  /** `struct.unpack("!i", bs)[0]` */
  function Unpack(bs: seq<Byte>): (v: int)
    requires |bs| == 4
    ensures Fits(v)
  {
    var a: int, b: int, c: int, d: int := bs[0], bs[1], bs[2], bs[3];
    var u := a * 0x100_0000 + b * 0x1_0000 + c * 0x100 + d;
    if u >= HALF then u - WHOLE else u
  }

  lemma PackRoundTrip(v: int)
    requires Fits(v)
    ensures Unpack(Pack(v)) == v
  {
    var u := if v < 0 then v + WHOLE else v;
    assert u / 0x1_0000 / 256 == u / 0x100_0000 && u / 0x100 / 256 == u / 0x1_0000;
  }

  /** Most significant byte first, and two's complement. */
  lemma BigEndian(v: int)
    requires Fits(v)
    ensures var b := Pack(v);
            (b[0] as int) * 16777216 + (b[1] as int) * 65536 + (b[2] as int) * 256 + b[3]
              == if v < 0 then v + 4294967296 else v
  {
    var u := if v < 0 then v + WHOLE else v;
    assert u / 0x1_0000 / 256 == u / 0x100_0000 && u / 0x100 / 256 == u / 0x1_0000;
  }

  /** What a peer does to the listening socket: nothing until the timeout, or a connection with some
      bytes after which it closes or stalls past the receive timeout. */
  datatype Incoming = NoConnection | Message(bytes: seq<Byte>, stalls: bool)

  datatype Four = Four(value: int, rest: seq<Byte>)

  /** Reading four bytes: short of them, the end of the stream supplies zeros and a stall raises. */
  function TakeFour(left: seq<Byte>, stalls: bool): Option<Four> {
    if |left| >= 4 then Some(Four(Unpack(left[..4]), left[4..]))
    else if stalls then None
    else Some(Four(Unpack(left + seq(4 - |left|, _ => 0)), []))
  }

  /** Fewer than four bytes: the missing ones count as zeros behind those there are, unless the peer stalls. */
  lemma ShortRead(left: seq<Byte>)
    requires |left| < 4
    ensures TakeFour(left, true) == None
    ensures left == [] ==> TakeFour(left, false) == Some(Four(0, []))
    ensures |left| == 1 && left[0] < 128 ==> TakeFour(left, false) == Some(Four((left[0] as int) * 16777216, []))
  {
  }

  class Connection {
    var left: seq<Byte>
    const stalls: bool
    var sizes: seq<nat>  // how much each recv delivers, at most

    constructor (bytes: seq<Byte>, stalls: bool, sizes: seq<nat>)
      ensures left == bytes && this.stalls == stalls
    {
      left, this.stalls, this.sizes := bytes, stalls, sizes;
    }

    /** `recv(n)`: some of the next bytes, none at the end of the stream, `None` for a timeout. */
    method Recv(n: nat) returns (t: Option<seq<Byte>>)
      requires n > 0
      modifies this
      ensures left == [] && old(left) == [] ==> t == if stalls then None else Some([])
      ensures old(left) != [] ==>
                t.Some? && 1 <= |t.value| <= n && old(left) == t.value + left
      ensures old(left) == [] ==> left == []
    {
      if left == [] {
        return if stalls then None else Some([]);
      }
      var size := if sizes == [] || sizes[0] == 0 then 1 else sizes[0];
      sizes := if sizes == [] then [] else sizes[1..];
      var k := Min(size, Min(n, |left|));
      t := Some(left[..k]);
      left := left[k..];
    }

    /** The accumulating loop of the receiver, the same whatever pieces the bytes arrive in. */
    method RecvFour() returns (r: Option<int>)
      modifies this
      ensures var four := TakeFour(old(left), stalls);
              match four
              case None => r == None
              case Some(f) => r == Some(f.value) && left == f.rest
    {
      var x: seq<Byte> := [];
      while |x| < 4
        invariant |x| <= 4 && old(left) == x + left
      {
        var t := Recv(4 - |x|);
        if t.None? { return None; }
        if t.value == [] { break; }
        x := x + t.value;
      }
      if |x| == 4 { assert old(left)[..4] == x && old(left)[4..] == left; }
      x := x + seq(4 - |x|, _ => 0);
      r := Some(Unpack(x));
    }
  }
}
