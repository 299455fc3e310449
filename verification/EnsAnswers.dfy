/**
 What the ENS client answers: the node a reverse lookup asks for, the answers and errors of a
 client without caches, and when the caches make no difference.
 */
module EnsAnswers {
  import opened Bytes
  import opened HexText
  import opened Ens
  import N = Namehash

  // ---- the reverse node

  lemma HexDigitIs(n: nat)
    requires n < 16
    ensures HexDigit(n) == Ascii("0123456789abcdef")[n] && Digit(HexDigit(n), n) && !White(HexDigit(n)) && HexDigit(n) != 46
    ensures N.LowerByte(HexDigit(n)) == HexDigit(n)
  {
  }

  /** The name of an address is read back as the address. */
  lemma {:induction false} HexIsRead(addr: Address)
    ensures Spells(Hex(addr), addr) && |Hex(addr)| == 2 * |addr| && 46 !in Hex(addr) && N.Lower(Hex(addr)) == Hex(addr)
  {
    hide Spells, HexDigit, Digit, White, N.LowerByte;
    if addr == [] {
      NothingSpelled([]);
    } else {
      HexIsRead(addr[1..]);
      HexDigitIs(addr[0] / 16);
      HexDigitIs(addr[0] % 16);
      var text := Hex(addr);
      assert text[2..] == Hex(addr[1..]);
      SpellsPair(text, addr);
      assert forall i :: 0 <= i < |text| ==> (i >= 2 ==> text[i] == text[2..][i - 2]);
    }
  }

  const ADDR: bytes := [97, 100, 100, 114]
  const REVERSE: bytes := [114, 101, 118, 101, 114, 115, 101]
  const ZERO_NODE: bytes := seq(32, _ => 0)

  lemma ReverseNameIs(addr: Address)
    ensures ReverseName(addr) == Hex(addr) + [46] + (ADDR + [46] + REVERSE)
  {
    assert Ascii(".addr.reverse") == [46] + (ADDR + [46] + REVERSE);
    hide Ascii, Hex;
  }

  lemma FixedLabels()
    ensures N.Lower(ADDR) == ADDR && N.Lower(REVERSE) == REVERSE && 46 !in ADDR && 46 !in REVERSE
  {
  }

  /** A reverse lookup asks for the address's hexadecimal text under addr under reverse, hashed as EIP-137 has it. */
  lemma ReverseNodeExactly(chain: Chain, addr: Address)
    ensures var k := chain.keccak;
      NodeOf(chain, ReverseName(addr)) == k(k(k(ZERO_NODE + k(REVERSE)) + k(ADDR)) + k(Hex(addr)))
  {
    ReverseNameIs(addr);
    FixedLabels();
    HexIsRead(addr);
    hide N.NodeOf, Hex, Spells, ReverseName, N.Lower;
    N.RootNode(chain.keccak, REVERSE);
    N.ChildNode(chain.keccak, ADDR, REVERSE);
    N.ChildNode(chain.keccak, Hex(addr), ADDR + [46] + REVERSE);
  }

  // ---- a client without caches

  const NO_ADDRESS: Address := seq(20, _ => 0)

  function Registered(chain: Chain, node: bytes, now: nat): (r: Reply<Address>) {
    match chain.registry(node, now)
    case None => Err(Decode)
    case Some(a) => if a == NO_ADDRESS then Err(NotFound) else Ok(a)
  }

  function Told(chain: Chain, name: bytes, now: nat): (r: Reply<Address>) {
    var node := NodeOf(chain, name);
    if name == [] then Err(InvalidName) else
    match Registered(chain, node, now)
    case Err(e) => Err(e)
    case Ok(resolver) =>
      match chain.addr(resolver, node, now)
      case None => Err(Decode)
      case Some(a) => if a == NO_ADDRESS then Err(NotFound) else Ok(a)
  }

  /** The name an address claims, if that name leads back to it. */
  function Named(chain: Chain, addr: Address, now: nat): (r: Reply<bytes>) {
    var node := NodeOf(chain, ReverseName(addr));
    match Registered(chain, node, now)
    case Err(e) => Err(e)
    case Ok(resolver) =>
      match chain.name(resolver, node, now)
      case None => Err(Decode)
      case Some(name) =>
        if name == [] then Err(NotFound) else
        match Told(chain, name, now)
        case Err(e) => Err(e)
        case Ok(back) => if back == addr then Ok(name) else Err(NotFound)
  }

  /** Every entry still in its lifetime says what the chain says now. */
  predicate Truthful(chain: Chain, ttl: nat, c: Caches, now: nat) {
    && (forall node <- c.resolver :: now - c.resolver[node].inserted < ttl ==> Registered(chain, node, now) == Ok(c.resolver[node].value))
    && (forall name <- c.forward :: name != [] && now - c.forward[name].inserted < ttl ==> Told(chain, name, now) == Ok(c.forward[name].value))
    && (forall addr <- c.reverse :: now - c.reverse[addr].inserted < ttl ==> Named(chain, addr, now) == Ok(c.reverse[addr].value))
  }

  lemma ZeroIs()
    ensures ZERO == NO_ADDRESS
  {
    N.ZerosAre(20);
  }

  lemma ResolverTransparent(chain: Chain, ttl: nat, c: Caches, node: bytes, now: nat)
    requires Truthful(chain, ttl, c, now)
    ensures var a := ResolverFor(chain, ttl, c, node, now); a.reply == Registered(chain, node, now) && Truthful(chain, ttl, a.caches, now)
  {
    hide Told, Named;
    ZeroIs();
  }

  lemma ResolveTransparent(chain: Chain, ttl: nat, c: Caches, name: bytes, now: nat)
    requires Truthful(chain, ttl, c, now)
    ensures var a := Resolve(chain, ttl, c, name, now); a.reply == Told(chain, name, now) && Truthful(chain, ttl, a.caches, now)
  {
    hide Named, Registered, ResolverFor, NodeOf;
    ZeroIs();
    ResolverTransparent(chain, ttl, c, NodeOf(chain, name), now);
  }

  /**
   Caches whose live entries agree with the chain change no answer and no error: the client says
   what the registry and the resolvers say now.
   */
  lemma CachesAreTransparent(chain: Chain, ttl: nat, c: Caches, name: bytes, addr: Address, now: nat)
    requires Truthful(chain, ttl, c, now)
    ensures Resolve(chain, ttl, c, name, now).reply == Told(chain, name, now)
    ensures Reverse(chain, ttl, c, addr, now).reply == Named(chain, addr, now)
    ensures Truthful(chain, ttl, Resolve(chain, ttl, c, name, now).caches, now)
    ensures Truthful(chain, ttl, Reverse(chain, ttl, c, addr, now).caches, now)
  {
    hide Registered, Told, ResolverFor, Resolve, NodeOf, ReverseName;
    ResolveTransparent(chain, ttl, c, name, now);
    var node := NodeOf(chain, ReverseName(addr));
    ResolverTransparent(chain, ttl, c, node, now);
    var claim := Claimed(chain, ttl, c, addr, now);
    if claim.reply.Ok? {
      ResolveTransparent(chain, ttl, claim.caches, claim.reply.value, now);
    }
  }

  lemma EmptyIsTruthful(chain: Chain, ttl: nat, now: nat)
    ensures Truthful(chain, ttl, Caches(map[], map[], map[]), now)
  {
  }

  /** A new client names an address exactly if the address claims a name that leads back to it. */
  lemma FreshReverseExactly(chain: Chain, ttl: nat, addr: Address, name: bytes, now: nat)
    ensures var node, forward := NodeOf(chain, ReverseName(addr)), NodeOf(chain, name);
      Reverse(chain, ttl, Caches(map[], map[], map[]), addr, now).reply == Ok(name) <==>
        && name != [] && addr != NO_ADDRESS
        && chain.registry(node, now).Some? && chain.registry(node, now).value != NO_ADDRESS
        && chain.name(chain.registry(node, now).value, node, now) == Some(name)
        && chain.registry(forward, now).Some? && chain.registry(forward, now).value != NO_ADDRESS
        && chain.addr(chain.registry(forward, now).value, forward, now) == Some(addr)
  {
    hide Reverse, NodeOf, ReverseName;
    EmptyIsTruthful(chain, ttl, now);
    CachesAreTransparent(chain, ttl, Caches(map[], map[], map[]), name, addr, now);
  }

  /** An entry past its lifetime is never answered from: it could be any other value. */
  lemma StaleIsIgnored(chain: Chain, ttl: nat, c: Caches, name: bytes, e: Entry<Address>, now: nat)
    requires name in c.forward && now >= c.forward[name].inserted + ttl && now >= e.inserted + ttl
    ensures Resolve(chain, ttl, c.(forward := c.forward[name := e]), name, now).reply == Resolve(chain, ttl, c, name, now).reply
  {
    hide NodeOf;
  }
}
