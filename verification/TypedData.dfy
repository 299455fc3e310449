/**
 Typed structured data as EIP-712 encodes it, and the signed payload of an order as an instance
 of it: the reference the order prover's hand-written preimage is compared with.
 */
module TypedData {
  import opened Bytes
  import opened Identity
  import opened MsgPack
  import opened OrderProof

  datatype Member = Member(kind: bytes, name: bytes)

  /** Text is hashed; numbers and words fill 32 bytes. */
  datatype Value = Text(text: bytes) | Number(n: nat) | Word(word: bytes)

  function Declared(m: Member): (r: bytes) {
    m.kind + [32] + m.name
  }

  /** The members in their order, with a comma after each but the last. */
  function Listed(members: seq<Member>): (r: bytes) {
    if members == [] then []
    else if |members| == 1 then Declared(members[0])
    else Listed(members[..|members| - 1]) + [44] + Declared(members[|members| - 1])
  }

  /** `encodeType`: the name and, in brackets, the members in their order. */
  function EncodeType(name: bytes, members: seq<Member>): (r: bytes) {
    name + [40] + Listed(members) + [41]
  }

  function EncodeValue(keccak: Hash, v: Value): (r: bytes) {
    match v
    case Text(text) => keccak(text)
    case Number(n) => BigEndian(n, 32)
    case Word(word) => word
  }

  function EncodeData(keccak: Hash, values: seq<Value>): (r: bytes) {
    if values == [] then [] else EncodeValue(keccak, values[0]) + EncodeData(keccak, values[1..])
  }

  /** `hashStruct`: the hash of the type's hash and the encoded members. */
  function HashStruct(keccak: Hash, name: bytes, members: seq<Member>, values: seq<Value>): (r: bytes) {
    keccak(keccak(EncodeType(name, members)) + EncodeData(keccak, values))
  }

  // ---- the order's domain and message

  const DOMAIN: seq<Member> := [
    Member(Ascii("string"), Ascii("name")), Member(Ascii("string"), Ascii("version")),
    Member(Ascii("uint256"), Ascii("chainId")), Member(Ascii("address"), Ascii("verifyingContract"))]

  const AGENT: seq<Member> := [Member(Ascii("string"), Ascii("source")), Member(Ascii("bytes32"), Ascii("connectionId"))]

  function DomainValues(): (values: seq<Value>) {
    [Text(Ascii("Exchange")), Text(Ascii("1")), Number(1337), Number(0)]
  }

  /** What the connection id is the hash of: action, nonce, vault and expiry, the last two marked. */
  function Connection(t: Terms): (r: bytes)
    requires Packable(t.action)
  {
    Pack(t.action) + BigEndian(t.nonce, 8)
    + (match t.vault case None => [0] case Some(vault) => [1] + vault)
    + (match t.expiry case None => [] case Some(expiry) => [0] + BigEndian(expiry, 8))
  }

  /** The source is the letter `a` on the main network and `b` on the test network. */
  function AgentValues(keccak: Hash, t: Terms, network: Network): (values: seq<Value>)
    requires Packable(t.action)
  {
    [Text(if network == Mainnet then [97] else [98]), Word(keccak(Connection(t)))]
  }

  lemma Punctuation()
    ensures Ascii(" ") == [32] && Ascii("(") == [40] && Ascii(")") == [41] && Ascii(",") == [44]
  {
  }

  lemma Associates(name: bytes, a: bytes, b: bytes, c: bytes, d: bytes)
    ensures name + [40] + a + [44] + b + [44] + c + [44] + d + [41] == name + [40] + (a + [44] + b + [44] + c + [44] + d) + [41]
    ensures name + [40] + a + [44] + b + [41] == name + [40] + (a + [44] + b) + [41]
  {
  }

  lemma ListedFour(a: Member, b: Member, c: Member, d: Member)
    ensures Listed([a, b, c, d]) == Declared(a) + [44] + Declared(b) + [44] + Declared(c) + [44] + Declared(d)
    ensures Listed([a, b]) == Declared(a) + [44] + Declared(b)
  {
    hide Declared;
    assert [a, b][..1] == [a] && [a, b, c][..2] == [a, b] && [a, b, c, d][..3] == [a, b, c];
    assert Listed([a, b]) == Declared(a) + [44] + Declared(b);
    assert Listed([a, b, c]) == Listed([a, b]) + [44] + Declared(c);
  }

  lemma TypeTexts()
    ensures EncodeType(Ascii("EIP712Domain"), DOMAIN) == DOMAIN_TYPE && EncodeType(Ascii("Agent"), AGENT) == AGENT_TYPE
  {
    Punctuation();
    hide Ascii, Listed;
    ListedFour(DOMAIN[0], DOMAIN[1], DOMAIN[2], DOMAIN[3]);
    ListedFour(AGENT[0], AGENT[1], AGENT[0], AGENT[1]);
    Associates(Ascii("EIP712Domain"), Declared(DOMAIN[0]), Declared(DOMAIN[1]), Declared(DOMAIN[2]), Declared(DOMAIN[3]));
    Associates(Ascii("Agent"), Declared(AGENT[0]), Declared(AGENT[1]), [], []);
  }

  lemma {:induction false} BigEndianZero(k: nat)
    ensures BigEndian(0, k) == seq(k, _ => 0)
  {
    if k > 0 {
      BigEndianZero(k - 1);
    }
  }

  /** What is signed for the terms of an order, as EIP-712 defines it. */
  function Typed(keccak: Hash, t: Terms, network: Network): (r: bytes)
    requires Packable(t.action)
  {
    [0x19, 0x01] + HashStruct(keccak, Ascii("EIP712Domain"), DOMAIN, DomainValues())
    + HashStruct(keccak, Ascii("Agent"), AGENT, AgentValues(keccak, t, network))
  }

  lemma DataOfFour(keccak: Hash, a: Value, b: Value, c: Value, d: Value)
    ensures EncodeData(keccak, [a, b, c, d]) ==
      EncodeValue(keccak, a) + EncodeValue(keccak, b) + EncodeValue(keccak, c) + EncodeValue(keccak, d)
    ensures EncodeData(keccak, [a, b]) == EncodeValue(keccak, a) + EncodeValue(keccak, b)
  {
    hide EncodeValue;
    assert [a, b, c, d][1..] == [b, c, d] && [b, c, d][1..] == [c, d] && [c, d][1..] == [d] && [d][1..] == [];
    assert [a, b][1..] == [b] && [b][1..] == [];
    assert EncodeData(keccak, [d]) == EncodeValue(keccak, d) && EncodeData(keccak, [b]) == EncodeValue(keccak, b);
    assert EncodeData(keccak, [c, d]) == EncodeValue(keccak, c) + EncodeValue(keccak, d);
    assert EncodeData(keccak, [b, c, d]) == EncodeValue(keccak, b) + EncodeData(keccak, [c, d]);
  }

  lemma DomainIsTyped(keccak: Hash)
    ensures Domain(keccak) == HashStruct(keccak, Ascii("EIP712Domain"), DOMAIN, DomainValues())
  {
    hide Ascii, EncodeType, BigEndian, EncodeData;
    TypeTexts();
    BigEndianZero(32);
    var v := DomainValues();
    DataOfFour(keccak, v[0], v[1], v[2], v[3]);
    assert EncodeData(keccak, v) == keccak(Ascii("Exchange")) + keccak(Ascii("1")) + BigEndian(1337, 32) + seq(32, _ => 0);
    assert keccak(DOMAIN_TYPE) + EncodeData(keccak, v)
      == keccak(DOMAIN_TYPE) + keccak(Ascii("Exchange")) + keccak(Ascii("1")) + BigEndian(1337, 32) + seq(32, _ => 0);
  }

  lemma SourceIs(network: Network)
    ensures Source(network) == if network == Mainnet then [97] else [98]
  {
  }

  lemma ConnectionIs(t: Terms)
    requires Packable(t.action)
    ensures Encoded(t) == Connection(t)
  {
    hide Pack, BigEndian;
  }

  /** The prover signs exactly this typed data, on either network, for all terms and every hash function. */
  lemma PreimageIsTypedData(keccak: Hash, t: Terms, network: Network)
    requires Packable(t.action)
    ensures Preimage(keccak, t, network) == Typed(keccak, t, network)
  {
    hide Ascii, EncodeType, Encoded, Connection, Domain, EncodeData, Source;
    ConnectionIs(t);
    TypeTexts();
    DomainIsTyped(keccak);
    SourceIs(network);
    var v := AgentValues(keccak, t, network);
    DataOfFour(keccak, v[0], v[1], v[0], v[1]);
    assert keccak(AGENT_TYPE) + EncodeData(keccak, v) == AgentInput(keccak, t, network);
  }
}
