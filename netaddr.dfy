/**
 * The arithmetic of Go's net/netip that the iterator and the mesh builder
 * rely on. An address is a bit width (32 for IPv4, 128 for IPv6) and a
 * number below 2^width, or the invalid zero Addr; a prefix is an address and
 * a bit count. Address and prefix TEXT (ParseAddr, ParsePrefix, String) is
 * library code and enters the model as the functions of a NetText value.
 */
module NetAddr {
  import opened Wrappers

  function Pow2(n: nat): (r: nat)
    ensures r >= 1
  {
    if n == 0 then 1 else 2 * Pow2(n - 1)
  }

  lemma {:induction false} Pow2Add(a: nat, b: nat)
    ensures Pow2(a + b) == Pow2(a) * Pow2(b)
    decreases a
  {
    if a > 0 {
      Pow2Add(a - 1, b);
      assert Pow2(a + b) == 2 * Pow2(a - 1 + b);
      MulAssoc(2, Pow2(a - 1), Pow2(b));
    }
  }

  lemma MulAssoc(x: nat, y: nat, z: nat)
    ensures x * (y * z) == (x * y) * z
  {
  }

  lemma MulMono(a: nat, b: nat, d: nat)
    requires a <= b
    ensures a * d <= b * d
  {
    var k := b - a;
    assert b * d == a * d + k * d;
  }

  lemma MulSucc(q: nat, d: nat)
    ensures (q + 1) * d == q * d + d
  {
  }

  /** (q * d + r) / d == q for a remainder r below d. */
  lemma DivAddRemainder(q: nat, d: nat, r: nat)
    requires 0 <= r < d
    ensures (q * d + r) / d == q && (q * d + r) % d == r
  {
    var x := q * d + r;
    var q', r' := x / d, x % d;
    assert x == q' * d + r';
    if q' < q {
      MulMono(q' + 1, q, d);
      assert false;
    }
    if q' > q {
      MulMono(q + 1, q', d);
      assert false;
    }
  }

  /** Rounding v down to a multiple of d. */
  lemma RoundDown(v: nat, d: nat)
    requires d > 0
    ensures 0 <= v / d * d <= v && v - v / d * d < d
    ensures (v / d * d) % d == 0 && (v / d * d) / d == v / d
  {
    MulMono(0, v / d, d);
    DivAddRemainder(v / d, d, 0);
    assert v == v / d * d + v % d;
  }

  /** q * d + d is the next multiple of d, whose quotient is q + 1. */
  lemma DivNextMultiple(q: nat, d: nat)
    requires d > 0
    ensures (q * d + d) / d == q + 1
  {
    MulSucc(q, d);
    DivAddRemainder(q + 1, d, 0);
  }

  type Width = w: nat | w == 32 || w == 128 witness 32

  datatype Addr = Invalid | IP(width: Width, value: nat)
  {
    predicate IsValid() { IP? }

    /** The value fits its address space. */
    predicate WellFormed() { IP? ==> value < Pow2(width) }

    predicate Is4() { IP? && width == 32 }

    function BitLen(): nat { if IP? then width else 0 }

    /** Addr.Next: the following address, or Invalid past the top of the space. */
    function Next(): (r: Addr)
      ensures r.IsValid() <==> IsValid() && value + 1 < Pow2(width)
      ensures r.IsValid() ==> r.width == width && r.value == value + 1 && r.WellFormed()
    {
      if IP? && value + 1 < Pow2(width) then IP(width, value + 1) else Invalid
    }
  }

  datatype Prefix = Prefix(addr: Addr, bits: int)
  {
    predicate IsValid() { addr.IsValid() && 0 <= bits <= addr.width }

    predicate WellFormed() { addr.WellFormed() }

    function HostBits(): nat
      requires IsValid()
    {
      addr.width - bits
    }

    /** The network address: the value with its host bits cleared. */
    function Base(): (b: nat)
      requires IsValid()
      ensures b % Pow2(HostBits()) == 0 && b <= addr.value && addr.value - b < Pow2(HostBits())
      ensures b / Pow2(HostBits()) == addr.value / Pow2(HostBits())
    {
      var d := Pow2(HostBits());
      RoundDown(addr.value, d);
      addr.value / d * d
    }

    /** Prefix.Masked; an invalid prefix becomes the zero Prefix. */
    function Masked(): (r: Prefix)
      ensures r.IsValid() <==> IsValid()
      ensures IsValid() ==> r.bits == bits && r.addr.width == addr.width && r.addr.value == Base()
      ensures !IsValid() ==> r == Prefix(Invalid, -1)
      ensures WellFormed() ==> r.WellFormed()
    {
      if IsValid() then Prefix(IP(addr.width, Base()), bits) else Prefix(Invalid, -1)
    }

    /** Prefix.Contains: same family and the same leading `bits` bits. */
    predicate Contains(a: Addr) {
      IsValid() && a.IsValid() && a.width == addr.width
      && a.value / Pow2(HostBits()) == addr.value / Pow2(HostBits())
    }
  }

  /** netip.PrefixFrom: an invalid address or an out-of-range count give bits -1. */
  function PrefixFrom(a: Addr, bits: int): (r: Prefix)
    ensures r.IsValid() <==> a.IsValid() && 0 <= bits <= a.BitLen()
    ensures a.IsValid() ==> r.addr == a
  {
    if !a.IsValid() then Prefix(Invalid, -1)
    else if bits < 0 || bits > a.width then Prefix(a, -1)
    else Prefix(a, bits)
  }

  /** A full-length prefix holds exactly its own address. */
  lemma HostPrefixContains(a: Addr, b: Addr)
    requires a.IsValid() && b.IsValid()
    ensures PrefixFrom(a, a.BitLen()).Contains(b) <==> b == a
  {
  }

  /** Masking twice is masking once. */
  lemma MaskedIdempotent(p: Prefix)
    ensures p.Masked().Masked() == p.Masked()
  {
    if p.IsValid() {
      var m := p.Masked();
      var d := Pow2(p.HostBits());
      assert m.HostBits() == p.HostBits();
      RoundDown(p.addr.value, d);
      RoundDown(m.addr.value, d);
      assert m.Base() == m.addr.value;
    }
  }

  /** A prefix and its masked form contain the same addresses. */
  lemma MaskedContains(p: Prefix, a: Addr)
    ensures p.Masked().Contains(a) <==> p.Contains(a)
  {
  }

  /** The prefix's last address is inside the space: base + 2^hostbits <= 2^width. */
  lemma BaseBound(p: Prefix)
    requires p.IsValid() && p.WellFormed()
    ensures p.Base() + Pow2(p.HostBits()) <= Pow2(p.addr.width)
  {
    Pow2Add(p.bits, p.HostBits());
    RoundUpBound(p.addr.value, Pow2(p.HostBits()), Pow2(p.bits));
  }

  /** Below m * d, the next multiple of d after rounding down is still at most m * d. */
  lemma RoundUpBound(v: nat, d: nat, m: nat)
    requires d > 0 && v < m * d
    ensures v / d * d + d <= m * d
  {
    var q := v / d;
    RoundDown(v, d);
    if q >= m {
      MulMono(m, q, d);
      assert false;
    }
    MulMono(q + 1, m, d);
    MulSucc(q, d);
  }

  /** How many addresses PrefixIter yields: all but the network address. */
  function HostCount(p: Prefix): nat
    requires p.IsValid()
  {
    Pow2(p.HostBits()) - 1
  }

  /**
   * Where PrefixIter's cursor stands after k yields: base + 1 + k, or the
   * invalid Addr once that passes the top of the address space.
   */
  function Cursor(p: Prefix, k: nat): (a: Addr)
    requires p.IsValid()
    ensures a.IsValid() ==> a.width == p.addr.width && a.value == p.Base() + 1 + k && a.WellFormed()
  {
    var v := p.Base() + 1 + k;
    if v < Pow2(p.addr.width) then IP(p.addr.width, v) else Invalid
  }

  /** The cursor moves on by Next. */
  lemma CursorNext(p: Prefix, k: nat)
    requires p.IsValid()
    ensures Cursor(p, k).Next() == Cursor(p, k + 1)
  {
  }

  /** Before the count is reached the cursor is a valid address inside the prefix. */
  lemma CursorInside(p: Prefix, k: nat)
    requires p.IsValid() && p.WellFormed() && k < HostCount(p)
    ensures Cursor(p, k).IsValid() && p.Contains(Cursor(p, k))
    ensures Cursor(p, k) != p.Masked().addr
  {
    BaseBound(p);
    HostArith(p.addr.value, Pow2(p.HostBits()), 1 + k);
  }

  /** The r-th address after a network address stays in that network while r < d. */
  lemma HostArith(v: nat, d: nat, r: nat)
    requires 0 < r < d
    ensures (v / d * d + r) / d == v / d
  {
    DivAddRemainder(v / d, d, r);
  }

  /** At the count the cursor has overflowed or left the prefix, so the loop ends. */
  lemma CursorOutside(p: Prefix)
    requires p.IsValid() && p.WellFormed()
    ensures !(Cursor(p, HostCount(p)).IsValid() && p.Contains(Cursor(p, HostCount(p))))
  {
    var d := Pow2(p.HostBits());
    var a := Cursor(p, HostCount(p));
    if a.IsValid() {
      assert a.value == p.Base() + d;
      DivNextMultiple(p.addr.value / d, d);
    }
  }

  /**
   * Address and prefix text (netip.ParseAddr, netip.ParsePrefix and the
   * String methods), supplied from outside.
   */
  datatype NetText = NetText(
    parseAddr: string -> Result<Addr>,
    parsePrefix: string -> Result<Prefix>,
    formatAddr: Addr -> string,
    formatPrefix: Prefix -> string)
  {
    /**
     * The behaviour of the library that the model relies on: parsing yields
     * valid, well-formed values or an InvalidAddress error naming the text,
     * and parsing what was printed gives the value back.
     */
    ghost predicate Lawful() {
      (forall s :: parseAddr(s).Ok? ==> parseAddr(s).value.IsValid() && parseAddr(s).value.WellFormed())
      && (forall s :: parseAddr(s).Err? ==> parseAddr(s).error == InvalidAddress(s))
      && (forall s :: parsePrefix(s).Ok? ==> parsePrefix(s).value.IsValid() && parsePrefix(s).value.WellFormed())
      && (forall s :: parsePrefix(s).Err? ==> parsePrefix(s).error == InvalidAddress(s))
      && (forall a: Addr :: a.IsValid() && a.WellFormed() ==> parseAddr(formatAddr(a)) == Ok(a))
      && (forall p: Prefix :: p.IsValid() && p.WellFormed() ==> parsePrefix(formatPrefix(p)) == Ok(p))
    }
  }
}
