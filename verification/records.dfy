/**
 The health-check log as the state machines see it: one record per line of the
 monitoring log (timestamp, IPv4 interface, response time or timeout), plus the
 IPv4 interface/network arithmetic used to group interfaces into networks.
 */
module Records {

  /** An instant. Any order-preserving encoding of the log's datetimes will do;
      the examples use the log's own YYYYMMDDhhmmss digits read as a number.
      0 stands for the earliest representable datetime (`datetime.min`). */
  type Timestamp = nat

  const EarliestTimestamp: Timestamp := 0

  datatype Option<+T> = None | Some(value: T)

  /** The outcome of a step that may raise. The only exception the modelled code
      can raise is the TypeError of comparing a missing response with an int. */
  datatype Result<+T> = Ok(value: T) | TypeError

  /** A 32-bit IPv4 address. */
  type Address = a: nat | a < 0x1_0000_0000

  /** A CIDR prefix length (RFC 4632, section 3.1). */
  type PrefixLen = p: nat | p <= 32

  /** An address with its prefix length, written a.b.c.d/p in the log. */
  datatype Interface = Interface(address: Address, prefixLen: PrefixLen)

  /** A network: the base address (host bits zero) and its prefix length. */
  datatype Network = Network(base: Address, prefixLen: PrefixLen)

  function Pow2(n: nat): (r: nat)
    ensures r >= 1
  {
    if n == 0 then 1 else 2 * Pow2(n - 1)
  }

  /** The dotted-quad address a.b.c.d. */
  function Ipv4(a: nat, b: nat, c: nat, d: nat): (r: Address)
    requires a < 256 && b < 256 && c < 256 && d < 256
    ensures r / 0x100_0000 == a && r % 0x100 == d
  {
    ((a * 256 + b) * 256 + c) * 256 + d
  }

  /** a / 2^k, computed bit by bit: the address with its k low bits dropped. */
  function DropLowBits(a: nat, k: nat): nat
  {
    if k == 0 then a else DropLowBits(a / 2, k - 1)
  }

  /** q * 2^k: the bits of q moved up by k places, low bits zero. */
  function ShiftUp(q: nat, k: nat): nat
  {
    if k == 0 then q else 2 * ShiftUp(q, k - 1)
  }

  /** Clearing the k low bits of a gives the start of the aligned block of
      2^k addresses that contains a. */
  lemma {:induction false} ClearedBitsBound(a: nat, k: nat)
    ensures ShiftUp(DropLowBits(a, k), k) <= a < ShiftUp(DropLowBits(a, k), k) + Pow2(k)
  {
    if k > 0 {
      ClearedBitsBound(a / 2, k - 1);
      ShiftDropCommute(a / 2, k - 1);
      ShiftDropCommute(a, k);
    }
  }

  lemma ShiftDropCommute(a: nat, k: nat)
    ensures k > 0 ==> DropLowBits(a, k) == DropLowBits(a / 2, k - 1)
    ensures k > 0 ==> ShiftUp(DropLowBits(a, k), k) == 2 * ShiftUp(DropLowBits(a, k), k - 1)
  {
  }

  lemma {:induction false} DropShiftUp(q: nat, k: nat)
    ensures DropLowBits(ShiftUp(q, k), k) == q
  {
    if k > 0 {
      ShiftThenDrop(q, k);
    }
  }

  lemma {:induction false} ShiftThenDrop(q: nat, k: nat)
    requires k > 0
    ensures DropLowBits(ShiftUp(q, k), k) == q
    decreases k
  {
    assert ShiftUp(q, k) / 2 == ShiftUp(q, k - 1);
    if k > 1 {
      ShiftThenDrop(q, k - 1);
    }
  }

  lemma {:induction false} ShiftUpInjective(x: nat, y: nat, k: nat)
    requires ShiftUp(x, k) == ShiftUp(y, k)
    ensures x == y
  {
    if k > 0 {
      ShiftUpInjective(x, y, k - 1);
    }
  }

  /** Dropping k low bits of any address in the aligned block that starts at
      q * 2^k leaves q: the block is the only one containing the address. */
  lemma {:induction false} DropLowBitsInBlock(a: nat, q: nat, k: nat)
    requires ShiftUp(q, k) <= a < ShiftUp(q, k) + Pow2(k)
    ensures DropLowBits(a, k) == q
    decreases k
  {
    if k > 0 {
      DropLowBitsInBlock(a / 2, q, k - 1);
    }
  }

  /** The network an interface belongs to: its address with the host bits
      (the low 32 - prefixLen bits) cleared. */
  function NetworkOf(i: Interface): (n: Network)
    ensures n.prefixLen == i.prefixLen
    ensures n.base <= i.address < n.base + Pow2(32 - i.prefixLen)
  {
    var h := 32 - i.prefixLen;
    ClearedBitsBound(i.address, h);
    Network(ShiftUp(DropLowBits(i.address, h), h), i.prefixLen)
  }

  /** The network of an interface is the one aligned block of its prefix
      length that contains the address. */
  lemma NetworkIsTheAlignedBlock(i: Interface, q: nat)
    requires ShiftUp(q, 32 - i.prefixLen) <= i.address < ShiftUp(q, 32 - i.prefixLen) + Pow2(32 - i.prefixLen)
    ensures NetworkOf(i) == Network(ShiftUp(q, 32 - i.prefixLen), i.prefixLen)
  {
    DropLowBitsInBlock(i.address, q, 32 - i.prefixLen);
  }

  /** Two interfaces with the same prefix length share a network exactly when
      their addresses agree above the host bits. */
  lemma SameNetworkIffSameHostPart(i: Interface, j: Interface)
    requires i.prefixLen == j.prefixLen
    ensures NetworkOf(i) == NetworkOf(j)
            <==> DropLowBits(i.address, 32 - i.prefixLen) == DropLowBits(j.address, 32 - j.prefixLen)
  {
    var h := 32 - i.prefixLen;
    if NetworkOf(i) == NetworkOf(j) {
      ShiftUpInjective(DropLowBits(i.address, h), DropLowBits(j.address, h), h);
    }
  }

  /** A network's own base address, read as an interface with the same prefix,
      lies in that network: the base has no host bits set. */
  lemma NetworkOfBase(i: Interface)
    ensures NetworkOf(Interface(NetworkOf(i).base, i.prefixLen)) == NetworkOf(i)
  {
    var h := 32 - i.prefixLen;
    DropShiftUp(DropLowBits(i.address, h), h);
  }

  /** One line of the monitoring log. A missing response is a timeout. */
  datatype LogRecord = LogRecord(time: Timestamp, iface: Interface, responseMs: Option<int>)
  {
    predicate IsTimedOut() {
      responseMs.None?
    }
  }
}
