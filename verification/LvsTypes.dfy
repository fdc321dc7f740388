/** IPVS entities, their keys, and the conversions from configuration (pkg/lvs/types.go). */
module LvsTypes {
  import opened Wrappers
  import opened Config

  const IPPROTO_TCP: nat := 6
  const IPPROTO_UDP: nat := 17
  const AF_INET: nat := 2
  const AF_INET6: nat := 10
  const CONNECTION_FLAG_MASQ: nat := 0

  datatype ServiceKey = ServiceKey(address: string, port: nat, protocol: nat)
  datatype DestinationKey = DestinationKey(address: string, port: nat)

  datatype Service = Service(
    address: IP, protocol: nat, port: nat, schedName: string, addressFamily: nat, netmask: nat,
    fwMark: nat, flags: nat, timeout: nat, peName: string)

  datatype Destination = Destination(
    address: IP, port: nat, weight: int, connectionFlags: nat, addressFamily: nat,
    upperThreshold: nat, lowerThreshold: nat)

  datatype ConversionError = InvalidAddress | InvalidPort | InvalidIP | UnsupportedProtocol

  /** Go's uint16(n) on an int: the low 16 bits, also for negative n. */
  function Uint16(n: int): (w: nat)
    ensures w < 0x1_0000
    ensures exists q: int :: n == q * 0x1_0000 + w
  {
    assert n == (n / 0x1_0000) * 0x1_0000 + n % 0x1_0000;
    n % 0x1_0000
  }

  function ProtocolFromString(protocol: string): Result<nat, ConversionError> {
    if protocol == "tcp" then Success(IPPROTO_TCP)
    else if protocol == "udp" then Success(IPPROTO_UDP)
    else Failure(UnsupportedProtocol)
  }

  function AddressFamilyFromIP(lib: Lib, ip: IP): nat {
    if lib.isIPv4(ip) then AF_INET else AF_INET6
  }

  function NetmaskFromFamily(family: nat): nat {
    if family == AF_INET then 0xFFFF_FFFF else 128
  }

  function KeyOfService(svc: Service): ServiceKey {
    ServiceKey(svc.address.text, svc.port, svc.protocol)
  }

  function KeyOfDestination(dst: Destination): DestinationKey {
    DestinationKey(dst.address.text, dst.port)
  }

  function SplitAddress(lib: Lib, address: string): Result<(string, nat), ConversionError> {
    match lib.splitHostPort(address)
    case None => Failure(InvalidAddress)
    case Some((host, portText)) =>
      match lib.atoi(portText)
      case None => Failure(InvalidPort)
      case Some(port) => Success((host, Uint16(port)))
  }

  function ServiceKeyFromConfig(lib: Lib, cfg: ServiceConfig): Result<ServiceKey, ConversionError> {
    var (host, port) :- SplitAddress(lib, cfg.listen);
    var protocol :- ProtocolFromString(cfg.protocol);
    Success(ServiceKey(host, port, protocol))
  }

  function ConfigToService(lib: Lib, cfg: ServiceConfig): Result<Service, ConversionError> {
    var (host, port) :- SplitAddress(lib, cfg.listen);
    match lib.parseIP(host)
    case None => Failure(InvalidIP)
    case Some(ip) =>
      var protocol :- ProtocolFromString(cfg.protocol);
      var family := AddressFamilyFromIP(lib, ip);
      Success(Service(ip, protocol, port, cfg.scheduler, family, NetmaskFromFamily(family), 0, 0, 0, ""))
  }

  function ConfigToDestination(lib: Lib, cfg: BackendConfig): Result<Destination, ConversionError> {
    var (host, port) :- SplitAddress(lib, cfg.address);
    match lib.parseIP(host)
    case None => Failure(InvalidIP)
    case Some(ip) =>
      Success(Destination(ip, port, cfg.weight, CONNECTION_FLAG_MASQ, AddressFamilyFromIP(lib, ip), 0, 0))
  }

  /** A listen address and its conversion errors, in the order in which they are found. */
  lemma ConvertedService(lib: Lib, cfg: ServiceConfig)
    ensures match lib.splitHostPort(cfg.listen)
      case None => ConfigToService(lib, cfg) == Failure(InvalidAddress)
      case Some((host, portText)) =>
        if lib.atoi(portText).None? then ConfigToService(lib, cfg) == Failure(InvalidPort)
        else if lib.parseIP(host).None? then ConfigToService(lib, cfg) == Failure(InvalidIP)
        else if cfg.protocol !in {"tcp", "udp"} then ConfigToService(lib, cfg) == Failure(UnsupportedProtocol)
        else
          ConfigToService(lib, cfg).Success? &&
          var svc := ConfigToService(lib, cfg).value;
          && svc.address == lib.parseIP(host).value && svc.schedName == cfg.scheduler
          && svc.port < 65536 && (lib.atoi(portText).value - svc.port) % 65536 == 0
          && svc.protocol == (if cfg.protocol == "tcp" then 6 else 17)
          && (lib.isIPv4(svc.address) ==> svc.addressFamily == 2 && svc.netmask == 4294967295)
          && (!lib.isIPv4(svc.address) ==> svc.addressFamily == 10 && svc.netmask == 128)
          && svc.fwMark == svc.flags == svc.timeout == 0 && svc.peName == ""
          && KeyOfService(svc) == ServiceKey(svc.address.text, svc.port, svc.protocol)
          && ServiceKeyFromConfig(lib, cfg) == Success(ServiceKey(host, svc.port, svc.protocol))
  {
  }

  lemma ConvertedDestination(lib: Lib, cfg: BackendConfig)
    ensures match lib.splitHostPort(cfg.address)
      case None => ConfigToDestination(lib, cfg) == Failure(InvalidAddress)
      case Some((host, portText)) =>
        if lib.atoi(portText).None? then ConfigToDestination(lib, cfg) == Failure(InvalidPort)
        else if lib.parseIP(host).None? then ConfigToDestination(lib, cfg) == Failure(InvalidIP)
        else
          ConfigToDestination(lib, cfg).Success? &&
          var dst := ConfigToDestination(lib, cfg).value;
          && dst.address == lib.parseIP(host).value && dst.weight == cfg.weight
          && dst.port < 65536 && (lib.atoi(portText).value - dst.port) % 65536 == 0
          && dst.addressFamily == (if lib.isIPv4(dst.address) then 2 else 10)
          && dst.connectionFlags == dst.upperThreshold == dst.lowerThreshold == 0
          && KeyOfDestination(dst) == DestinationKey(dst.address.text, dst.port)
  {
  }

  /** The host part of an address is written the way net.IP prints it (for IPv6, section 4 of RFC 5952). */
  predicate CanonicalHost(lib: Lib, address: string) {
    match lib.splitHostPort(address)
    case None => true
    case Some((host, _)) => lib.parseIP(host) == Some(IP(host))
  }

  /** The key derived from the text agrees with the key the kernel will report exactly for canonical hosts. */
  lemma KeysAgreeIffCanonical(lib: Lib, cfg: ServiceConfig)
    requires ConfigToService(lib, cfg).Success?
    ensures ServiceKeyFromConfig(lib, cfg).Success?
    ensures ServiceKeyFromConfig(lib, cfg).value == KeyOfService(ConfigToService(lib, cfg).value)
            <==> CanonicalHost(lib, cfg.listen)
  {
  }
}
