/** server.ServerInfo: the immutable (service name, host name, port)
    triple that addresses a remote service, with Java's null-safe value
    equality and its hash code. */
module ServerInfos {
  import opened Common

  /** Java's int. */
  type Int32 = x: int | -0x8000_0000 <= x < 0x8000_0000

  const TWO_TO_32: int := 0x1_0000_0000

  /** The constant the hash code multiplies by. */
  const HASH: int := 31

  /** The getters getServiceName, getHostName and getPort are the fields;
      either name may be null. */
  datatype ServerInfo = ServerInfo(serviceName: Option<string>, hostName: Option<string>, port: Int32)

  /** What the Object passed to equals can be. */
  datatype JavaObject = Null | AServerInfo(info: ServerInfo) | OtherClass

  /** Java int arithmetic: the result taken modulo 2^32 into the int range. */
  function Wrap32(x: int): (w: Int32)
    ensures (w - x) % TWO_TO_32 == 0
  {
    (x + 0x8000_0000) % TWO_TO_32 - 0x8000_0000
  }

  /** `a != null ? a.equals(b) : b == null`. */
  function NullSafeEquals(a: Option<string>, b: Option<string>): (r: bool)
    ensures r <==> a == b
  {
    if a.Some? then b.Some? && a.value == b.value else b.None?
  }

  /** equals: false for null and for any other class; for a ServerInfo,
      true exactly when the ports are equal and both names are equal, a
      null name matching only a null name. */
  function Equals(self: ServerInfo, o: JavaObject): (r: bool)
    ensures !o.AServerInfo? ==> !r
    ensures o.AServerInfo? ==> (r <==> self == o.info)
  {
    match o
    case Null => false
    case OtherClass => false
    case AServerInfo(that) =>
      self.port == that.port
      && NullSafeEquals(self.hostName, that.hostName)
      && NullSafeEquals(self.serviceName, that.serviceName)
  }

  lemma EqualsReflexive(a: ServerInfo)
    ensures Equals(a, AServerInfo(a))
  {
  }

  lemma EqualsSymmetric(a: ServerInfo, b: ServerInfo)
    ensures Equals(a, AServerInfo(b)) <==> Equals(b, AServerInfo(a))
  {
  }

  /** hashCode, with String.hashCode passed in as `stringHash` since its
      algorithm is a library internal: the host name's hash (0 for null),
      times 31 plus the service name's hash (0 for null), times 31 plus the
      port, each step in 32-bit int arithmetic. */
  function HashCode(self: ServerInfo, stringHash: string -> Int32): Int32 {
    var result := if self.hostName.Some? then stringHash(self.hostName.value) else 0;
    var result := Wrap32(HASH * result + (if self.serviceName.Some? then stringHash(self.serviceName.value) else 0));
    Wrap32(HASH * result + self.port)
  }

  /** Equal infos hash alike, whatever the string hash is. */
  lemma EqualsConsistentWithHashCode(a: ServerInfo, b: ServerInfo, stringHash: string -> Int32)
    requires Equals(a, AServerInfo(b))
    ensures HashCode(a, stringHash) == HashCode(b, stringHash)
  {
  }

  /** Two values congruent modulo 2^32 wrap to the same int. */
  lemma Wrap32Congruent(x: int, y: int)
    requires (x - y) % TWO_TO_32 == 0
    ensures Wrap32(x) == Wrap32(y)
  {
    var k := (x - y) / TWO_TO_32;
    assert x == y + k * TWO_TO_32;
    assert (x + 0x8000_0000) % TWO_TO_32 == (y + 0x8000_0000) % TWO_TO_32;
  }

  /** Wrapping at every step equals wrapping once at the end: the hash
      code is the polynomial 31^2 h(host) + 31 h(service) + port taken
      modulo 2^32 into the int range. */
  lemma HashCodePolynomial(self: ServerInfo, stringHash: string -> Int32)
    ensures var h := if self.hostName.Some? then stringHash(self.hostName.value) else 0;
            var s := if self.serviceName.Some? then stringHash(self.serviceName.value) else 0;
            HashCode(self, stringHash) == Wrap32(HASH * HASH * h + HASH * s + self.port)
  {
    var h := if self.hostName.Some? then stringHash(self.hostName.value) else 0;
    var s := if self.serviceName.Some? then stringHash(self.serviceName.value) else 0;
    var inner := HASH * h + s;
    var w := Wrap32(inner);
    assert (w - inner) % TWO_TO_32 == 0;
    var k := (w - inner) / TWO_TO_32;
    assert HASH * w + self.port == HASH * inner + self.port + HASH * k * TWO_TO_32;
    Wrap32Congruent(HASH * w + self.port, HASH * inner + self.port);
  }
}
