/**
 The ENS client: forward and reverse resolution over three caches that share one time to
 live. The chain is any function of time; a call takes no time.
 */
module Ens {
  import opened Bytes
  import N = Namehash

  type Address = bytes

  const ZERO: Address := N.Zeros(20)

  datatype Error = InvalidName | Decode | NotFound

  datatype Reply<+T> = Ok(value: T) | Err(error: Error)

  /** What the registry and the resolvers answer at each moment; None is a failed call. */
  datatype Chain = Chain(
    keccak: N.Hash,
    registry: (bytes, nat) -> Option<Address>,
    addr: (Address, bytes, nat) -> Option<Address>,
    name: (Address, bytes, nat) -> Option<bytes>)

  datatype Entry<+T> = Entry(value: T, inserted: nat)

  datatype Caches = Caches(forward: map<bytes, Entry<Address>>, reverse: map<Address, Entry<bytes>>, resolver: map<bytes, Entry<Address>>)

  datatype Answer<+T> = Answer(reply: Reply<T>, caches: Caches)

  predicate Fresh<T>(e: Entry<T>, now: nat, ttl: nat) {
    now - e.inserted < ttl
  }

  function HexDigit(n: nat): (r: byte)
    requires n < 16
  {
    if n < 10 then 48 + n else 87 + n
  }

  function Hex(s: bytes): (r: bytes) {
    if s == [] then [] else [HexDigit(s[0] / 16), HexDigit(s[0] % 16)] + Hex(s[1..])
  }

  function NodeOf(chain: Chain, name: bytes): (r: bytes) {
    N.NodeOf(chain.keccak, name)
  }

  function ReverseName(addr: Address): (r: bytes) {
    Hex(addr) + Ascii(".addr.reverse")
  }

  function ResolverFor(chain: Chain, ttl: nat, c: Caches, node: bytes, now: nat): (r: Answer<Address>) {
    if node in c.resolver && Fresh(c.resolver[node], now, ttl) then Answer(Ok(c.resolver[node].value), c) else
    match chain.registry(node, now)
    case None => Answer(Err(Decode), c)
    case Some(resolver) =>
      if resolver == ZERO then Answer(Err(NotFound), c)
      else Answer(Ok(resolver), c.(resolver := c.resolver[node := Entry(resolver, now)]))
  }

  function Resolve(chain: Chain, ttl: nat, c: Caches, name: bytes, now: nat): (r: Answer<Address>) {
    if name == [] then Answer(Err(InvalidName), c) else
    if name in c.forward && Fresh(c.forward[name], now, ttl) then Answer(Ok(c.forward[name].value), c) else
    var node := NodeOf(chain, name);
    var found := ResolverFor(chain, ttl, c, node, now);
    if found.reply.Err? then Answer(Err(found.reply.error), found.caches) else
    match chain.addr(found.reply.value, node, now)
    case None => Answer(Err(Decode), found.caches)
    case Some(addr) =>
      if addr == ZERO then Answer(Err(NotFound), found.caches)
      else Answer(Ok(addr), found.caches.(forward := found.caches.forward[name := Entry(addr, now)]))
  }

  /** The claimed name, before it is checked. */
  function Claimed(chain: Chain, ttl: nat, c: Caches, addr: Address, now: nat): (r: Answer<bytes>) {
    var node := NodeOf(chain, ReverseName(addr));
    var found := ResolverFor(chain, ttl, c, node, now);
    if found.reply.Err? then Answer(Err(found.reply.error), found.caches) else
    match chain.name(found.reply.value, node, now)
    case None => Answer(Err(Decode), found.caches)
    case Some(name) => Answer(if name == [] then Err(NotFound) else Ok(name), found.caches)
  }

  function Reverse(chain: Chain, ttl: nat, c: Caches, addr: Address, now: nat): (r: Answer<bytes>) {
    if addr in c.reverse && Fresh(c.reverse[addr], now, ttl) then Answer(Ok(c.reverse[addr].value), c) else
    var claim := Claimed(chain, ttl, c, addr, now);
    if claim.reply.Err? then claim else
    var name := claim.reply.value;
    var forward := Resolve(chain, ttl, claim.caches, name, now);
    if forward.reply.Err? then Answer(Err(forward.reply.error), forward.caches) else
    if forward.reply.value != addr then Answer(Err(NotFound), forward.caches)
    else Answer(Ok(name), forward.caches.(reverse := forward.caches.reverse[addr := Entry(name, now)]))
  }

  class EnsClient {
    const ttl: nat
    const chain: Chain
    var forward: map<bytes, Entry<Address>>
    var reverse: map<Address, Entry<bytes>>
    var resolver: map<bytes, Entry<Address>>

    constructor (chain: Chain, ttl: nat)
      ensures this.chain == chain && this.ttl == ttl && Value() == Caches(map[], map[], map[])
    {
      this.chain, this.ttl := chain, ttl;
      forward, reverse, resolver := map[], map[], map[];
    }

    ghost function Value(): (c: Caches)
      reads this
    {
      Caches(forward, reverse, resolver)
    }

    method LookUpResolver(node: bytes, now: nat) returns (r: Reply<Address>)
      modifies this
      ensures Answer(r, Value()) == ResolverFor(chain, ttl, old(Value()), node, now)
    {
      if node in resolver && Fresh(resolver[node], now, ttl) {
        return Ok(resolver[node].value);
      }
      var found := chain.registry(node, now);
      if found.None? {
        return Err(Decode);
      }
      if found.value == ZERO {
        return Err(NotFound);
      }
      resolver := resolver[node := Entry(found.value, now)];
      return Ok(found.value);
    }

    method ResolveName(name: bytes, now: nat) returns (r: Reply<Address>)
      modifies this
      ensures Answer(r, Value()) == Resolve(chain, ttl, old(Value()), name, now)
    {
      hide ResolverFor;
      if name == [] {
        return Err(InvalidName);
      }
      if name in forward && Fresh(forward[name], now, ttl) {
        return Ok(forward[name].value);
      }
      var node := N.Compute(chain.keccak, name);
      r := LookUpResolver(node, now);
      if r.Err? {
        return;
      }
      var addr := chain.addr(r.value, node, now);
      if addr.None? {
        return Err(Decode);
      }
      if addr.value == ZERO {
        return Err(NotFound);
      }
      forward := forward[name := Entry(addr.value, now)];
      return Ok(addr.value);
    }

    method ReverseResolve(addr: Address, now: nat) returns (r: Reply<bytes>)
      modifies this
      ensures Answer(r, Value()) == Reverse(chain, ttl, old(Value()), addr, now)
    {
      hide ResolverFor, Resolve;
      if addr in reverse && Fresh(reverse[addr], now, ttl) {
        return Ok(reverse[addr].value);
      }
      var node := N.Compute(chain.keccak, ReverseName(addr));
      var found := LookUpResolver(node, now);
      if found.Err? {
        return Err(found.error);
      }
      var name := chain.name(found.value, node, now);
      if name.None? {
        return Err(Decode);
      }
      if name.value == [] {
        return Err(NotFound);
      }
      var back := ResolveName(name.value, now);
      if back.Err? {
        return Err(back.error);
      }
      if back.value != addr {
        return Err(NotFound);
      }
      reverse := reverse[addr := Entry(name.value, now)];
      return Ok(name.value);
    }
  }

  // ----- Runs -----

  /** `Touch` is any other lookup, of a text record or a content hash, that reaches the shared resolver cache. */
  datatype Query = Forward(name: bytes) | Backward(addr: Address) | Touch(name: bytes)

  datatype Event = At(time: nat, query: Query)

  function Step(chain: Chain, ttl: nat, c: Caches, e: Event): (r: Caches) {
    match e.query
    case Forward(name) => Resolve(chain, ttl, c, name, e.time).caches
    case Backward(addr) => Reverse(chain, ttl, c, addr, e.time).caches
    case Touch(name) => ResolverFor(chain, ttl, c, NodeOf(chain, name), e.time).caches
  }

  function After(chain: Chain, ttl: nat, history: seq<Event>): (c: Caches) {
    if history == [] then Caches(map[], map[], map[])
    else Step(chain, ttl, After(chain, ttl, history[..|history| - 1]), history[|history| - 1])
  }

  predicate Ordered(history: seq<Event>, now: nat) {
    && (forall i, j :: 0 <= i < j < |history| ==> history[i].time <= history[j].time)
    && (forall i :: 0 <= i < |history| ==> history[i].time <= now)
  }

  // ----- What a cached value rests on -----

  /** Read at `then_`, still good at `now`. */
  predicate Within(ttl: nat, now: nat, then_: nat) {
    then_ == now || (then_ < now && now - then_ < ttl)
  }

  /** At `f` the resolver the registry named at `r` gave `addr` for `name`. */
  predicate ForwardRead(chain: Chain, ttl: nat, name: bytes, addr: Address, f: nat, r: nat) {
    var node := NodeOf(chain, name);
    && Within(ttl, f, r)
    && chain.registry(node, r).Some?
    && chain.addr(chain.registry(node, r).value, node, f) == Some(addr)
  }

  predicate ResolverBacked(chain: Chain, node: bytes, e: Entry<Address>, now: nat) {
    e.inserted <= now && chain.registry(node, e.inserted) == Some(e.value)
  }

  ghost predicate ForwardBacked(chain: Chain, ttl: nat, name: bytes, e: Entry<Address>, now: nat) {
    e.inserted <= now && exists r :: ForwardRead(chain, ttl, name, e.value, e.inserted, r)
  }

  ghost predicate ReverseBacked(chain: Chain, ttl: nat, addr: Address, e: Entry<bytes>, now: nat) {
    e.inserted <= now && exists f, r :: Within(ttl, e.inserted, f) && ForwardRead(chain, ttl, e.value, addr, f, r)
  }

  ghost predicate Backed(chain: Chain, ttl: nat, c: Caches, now: nat) {
    && (forall node <- c.resolver :: ResolverBacked(chain, node, c.resolver[node], now))
    && (forall name <- c.forward :: ForwardBacked(chain, ttl, name, c.forward[name], now))
    && (forall addr <- c.reverse :: ReverseBacked(chain, ttl, addr, c.reverse[addr], now))
  }

  lemma LaterBacked(chain: Chain, ttl: nat, c: Caches, now: nat, later: nat)
    requires Backed(chain, ttl, c, now) && now <= later
    ensures Backed(chain, ttl, c, later)
  {
  }

  lemma ResolverKeeps(chain: Chain, ttl: nat, c: Caches, node: bytes, now: nat) returns (r: nat)
    requires Backed(chain, ttl, c, now)
    ensures var a := ResolverFor(chain, ttl, c, node, now);
      && Backed(chain, ttl, a.caches, now) && a.caches.forward == c.forward && a.caches.reverse == c.reverse
      && (a.reply.Ok? ==> Within(ttl, now, r) && chain.registry(node, r) == Some(a.reply.value))
  {
    hide ForwardBacked, ReverseBacked;
    r := now;
    if node in c.resolver && Fresh(c.resolver[node], now, ttl) {
      assert ResolverBacked(chain, node, c.resolver[node], now);
      r := c.resolver[node].inserted;
    }
  }

  /** A forward answer at `now` was read from the chain at some `f`. */
  lemma ResolveKeeps(chain: Chain, ttl: nat, c: Caches, name: bytes, now: nat) returns (f: nat, r: nat)
    requires Backed(chain, ttl, c, now)
    ensures var a := Resolve(chain, ttl, c, name, now);
      && Backed(chain, ttl, a.caches, now) && a.caches.reverse == c.reverse
      && (a.reply.Ok? ==> Within(ttl, now, f) && ForwardRead(chain, ttl, name, a.reply.value, f, r))
  {
    hide ReverseBacked, ResolverBacked, ResolverFor, NodeOf;
    f, r := now, now;
    var a := Resolve(chain, ttl, c, name, now);
    if name in c.forward && Fresh(c.forward[name], now, ttl) && name != [] {
      assert ForwardBacked(chain, ttl, name, c.forward[name], now);
      f := c.forward[name].inserted;
      r :| ForwardRead(chain, ttl, name, c.forward[name].value, f, r);
    } else {
      r := ResolverKeeps(chain, ttl, c, NodeOf(chain, name), now);
      assert a.reply.Ok? ==> ForwardRead(chain, ttl, name, a.reply.value, now, r);
    }
  }

  lemma ClaimKeeps(chain: Chain, ttl: nat, c: Caches, addr: Address, now: nat)
    requires Backed(chain, ttl, c, now)
    ensures var a := Claimed(chain, ttl, c, addr, now); Backed(chain, ttl, a.caches, now) && a.caches.reverse == c.reverse
  {
    hide Backed, ResolverFor;
    var r := ResolverKeeps(chain, ttl, c, NodeOf(chain, ReverseName(addr)), now);
  }

  predicate Rests(chain: Chain, ttl: nat, name: bytes, addr: Address, now: nat, g: nat, f: nat, r: nat) {
    Within(ttl, now, g) && Within(ttl, g, f) && ForwardRead(chain, ttl, name, addr, f, r)
  }

  lemma ReverseKeeps(chain: Chain, ttl: nat, c: Caches, addr: Address, now: nat) returns (g: nat, f: nat, r: nat)
    requires Backed(chain, ttl, c, now)
    ensures var a := Reverse(chain, ttl, c, addr, now);
      && Backed(chain, ttl, a.caches, now)
      && (a.reply.Ok? ==> Rests(chain, ttl, a.reply.value, addr, now, g, f, r))
  {
    hide ForwardRead, ResolverBacked, ForwardBacked, Claimed, Resolve;
    g, f, r := now, now, now;
    if addr in c.reverse && Fresh(c.reverse[addr], now, ttl) {
      var e := c.reverse[addr];
      assert ReverseBacked(chain, ttl, addr, e, now);
      g := e.inserted;
      f, r :| Within(ttl, e.inserted, f) && ForwardRead(chain, ttl, e.value, addr, f, r);
    } else {
      ClaimKeeps(chain, ttl, c, addr, now);
      var claim := Claimed(chain, ttl, c, addr, now);
      if claim.reply.Ok? {
        f, r := ResolveKeeps(chain, ttl, claim.caches, claim.reply.value, now);
      }
    }
  }

  lemma {:induction false} RunKeeps(chain: Chain, ttl: nat, history: seq<Event>, now: nat)
    requires Ordered(history, now)
    ensures Backed(chain, ttl, After(chain, ttl, history), now)
  {
    hide Backed, Resolve, Reverse, ResolverFor;
    if history == [] {
      EmptyBacked(chain, ttl, now);
    } else {
      var e, before := history[|history| - 1], history[..|history| - 1];
      RunKeeps(chain, ttl, before, e.time);
      StepKeeps(chain, ttl, After(chain, ttl, before), e);
      LaterBacked(chain, ttl, After(chain, ttl, history), e.time, now);
    }
  }

  lemma EmptyBacked(chain: Chain, ttl: nat, now: nat)
    ensures Backed(chain, ttl, Caches(map[], map[], map[]), now)
  {
  }

  lemma StepKeeps(chain: Chain, ttl: nat, c: Caches, e: Event)
    requires Backed(chain, ttl, c, e.time)
    ensures Backed(chain, ttl, Step(chain, ttl, c, e), e.time)
  {
    hide Backed, Resolve, Reverse, ResolverFor;
    match e.query {
      case Forward(name) => var f, r := ResolveKeeps(chain, ttl, c, name, e.time);
      case Backward(addr) => var g, f, r := ReverseKeeps(chain, ttl, c, addr, e.time);
      case Touch(name) => var r := ResolverKeeps(chain, ttl, c, NodeOf(chain, name), e.time);
    }
  }

  /**
   Whatever mix of cached and fresh values answered, a name given for an address at `now`
   had resolved to that address: by an address read less than two lifetimes old, through a
   resolver the registry named less than three lifetimes before.
   */
  lemma ReverseIsRecent(chain: Chain, ttl: nat, history: seq<Event>, addr: Address, now: nat) returns (f: nat, r: nat)
    requires Ordered(history, now)
    ensures var reply := Reverse(chain, ttl, After(chain, ttl, history), addr, now).reply;
      reply.Ok? ==>
        && ForwardRead(chain, ttl, reply.value, addr, f, r)
        && (f == now || (f < now && now - f < 2 * ttl))
        && (r == now || (r < now && now - r < 3 * ttl))
  {
    hide Backed, Reverse, After;
    RunKeeps(chain, ttl, history, now);
    var g;
    g, f, r := ReverseKeeps(chain, ttl, After(chain, ttl, history), addr, now);
  }

  /** Nothing about `node` changed in the last three lifetimes. */
  ghost predicate Steady(chain: Chain, ttl: nat, node: bytes, now: nat) {
    && (forall t: nat :: t <= now && (t == now || now - t < 3 * ttl) ==> chain.registry(node, t) == chain.registry(node, now))
    && (forall a: Address, t: nat :: t <= now && (t == now || now - t < 3 * ttl) ==> chain.addr(a, node, t) == chain.addr(a, node, now))
  }

  /** For a name whose records were steady that long, the answer is what the chain says now. */
  lemma SteadyAnswersAreCurrent(chain: Chain, ttl: nat, history: seq<Event>, addr: Address, now: nat)
    requires Ordered(history, now)
    ensures var reply := Reverse(chain, ttl, After(chain, ttl, history), addr, now).reply;
      reply.Ok? && Steady(chain, ttl, NodeOf(chain, reply.value), now) ==>
        ForwardRead(chain, ttl, reply.value, addr, now, now)
  {
    hide Reverse, After, NodeOf;
    var f, r := ReverseIsRecent(chain, ttl, history, addr, now);
    var reply := Reverse(chain, ttl, After(chain, ttl, history), addr, now).reply;
    if reply.Ok? && Steady(chain, ttl, NodeOf(chain, reply.value), now) {
      var node := NodeOf(chain, reply.value);
      assert chain.registry(node, r) == chain.registry(node, now);
      assert chain.addr(chain.registry(node, r).value, node, f) == chain.addr(chain.registry(node, r).value, node, now);
    }
  }

  // ----- Three lifetimes are really reached -----

  /** A chain that names a resolver for `name` only at 0, gives its address only at d and the reverse claim only at 2d. */
  function Fleeting(keccak: N.Hash, d: nat, name: bytes, addr: Address, resolver: Address): (chain: Chain) {
    var node := N.NodeOf(keccak, name);
    Chain(keccak,
          (n, t) => if n == node && t != 0 then None else Some(resolver),
          (a, n, t) => if t == d then Some(addr) else None,
          (a, n, t) => if t == 2 * d then Some(name) else None)
  }

  lemma FleetingFirst(chain: Chain, ttl: nat, name: bytes, resolver: Address)
    requires chain.registry(NodeOf(chain, name), 0) == Some(resolver) && resolver != ZERO
    ensures Step(chain, ttl, Caches(map[], map[], map[]), At(0, Touch(name)))
         == Caches(map[], map[], map[NodeOf(chain, name) := Entry(resolver, 0)])
  {
    hide NodeOf;
  }

  lemma FleetingSecond(chain: Chain, d: nat, name: bytes, addr: Address, resolver: Address)
    requires name != [] && addr != ZERO && chain.addr(resolver, NodeOf(chain, name), d) == Some(addr)
    ensures var node := NodeOf(chain, name);
      Step(chain, d + 1, Caches(map[], map[], map[node := Entry(resolver, 0)]), At(d, Forward(name)))
        == Caches(map[name := Entry(addr, d)], map[], map[node := Entry(resolver, 0)])
  {
    hide NodeOf;
  }

  lemma FleetingThird(chain: Chain, d: nat, name: bytes, addr: Address, resolver: Address)
    requires name != [] && resolver != ZERO && NodeOf(chain, name) != NodeOf(chain, ReverseName(addr))
    requires chain.registry(NodeOf(chain, ReverseName(addr)), 2 * d) == Some(resolver)
    requires chain.name(resolver, NodeOf(chain, ReverseName(addr)), 2 * d) == Some(name)
    ensures var c := Caches(map[name := Entry(addr, d)], map[], map[NodeOf(chain, name) := Entry(resolver, 0)]);
      addr in Step(chain, d + 1, c, At(2 * d, Backward(addr))).reverse
      && Step(chain, d + 1, c, At(2 * d, Backward(addr))).reverse[addr] == Entry(name, 2 * d)
  {
    hide NodeOf, ReverseName;
  }

  /**
   With a lifetime of d + 1, a reverse answer at 3d can rest on a registry read at 0 that no
   later read would have confirmed.
   */
  lemma StalenessIsReached(keccak: N.Hash, d: nat, name: bytes, addr: Address, resolver: Address)
    requires name != [] && addr != ZERO && resolver != ZERO
    requires N.NodeOf(keccak, name) != N.NodeOf(keccak, ReverseName(addr))
    ensures var chain := Fleeting(keccak, d, name, addr, resolver);
      var history := [At(0, Touch(name)), At(d, Forward(name)), At(2 * d, Backward(addr))];
      && Ordered(history, 3 * d)
      && Reverse(chain, d + 1, After(chain, d + 1, history), addr, 3 * d).reply == Ok(name)
      && forall t: nat :: t > 0 ==> chain.registry(NodeOf(chain, name), t) == None
  {
    hide Step, ReverseName;
    var chain, ttl := Fleeting(keccak, d, name, addr, resolver), d + 1;
    var history := [At(0, Touch(name)), At(d, Forward(name)), At(2 * d, Backward(addr))];
    FleetingFirst(chain, ttl, name, resolver);
    FleetingSecond(chain, d, name, addr, resolver);
    FleetingThird(chain, d, name, addr, resolver);
    assert history[..2][..1][..0] == [] && history[..2][..1] == history[..1];
    assert After(chain, ttl, history[..1]) == Step(chain, ttl, Caches(map[], map[], map[]), history[0]);
    assert After(chain, ttl, history[..2]) == Step(chain, ttl, After(chain, ttl, history[..1]), history[1]);
  }
}
