/** Configuration records (pkg/config/config.go) and the library calls they are decoded with. */
module Config {
  import opened Wrappers

  /** A net.IP value, identified with the text its String method prints. */
  datatype IP = IP(text: string)

  /**
   The Go library functions whose results decide how a configuration is read.
   They are left arbitrary: whatever is proved holds for every behaviour of net and strconv.
   */
  datatype Lib = Lib(
    splitHostPort: string -> Option<(string, string)>,
    atoi: string -> Option<int>,
    parseIP: string -> Option<IP>,
    isIPv4: IP -> bool,
    parseDuration: string -> Option<int>)

  datatype BackendConfig = BackendConfig(address: string, weight: int)

  datatype HealthCheckConfig = HealthCheckConfig(
    enabled: Option<bool>,
    checkType: string,
    interval: string,
    timeout: string,
    httpPath: string,
    failCount: int,
    riseCount: int,
    httpExpectedStatus: int)
  {
    predicate IsEnabled() {
      enabled.None? || enabled.value
    }

    function GetType(): string {
      if checkType == "" then "tcp" else checkType
    }

    function GetFailCount(): (n: nat)
      ensures n >= 1
    {
      if failCount <= 0 then 3 else failCount
    }

    function GetRiseCount(): (n: nat)
      ensures n >= 1
    {
      if riseCount <= 0 then 2 else riseCount
    }
  }

  datatype ServiceConfig = ServiceConfig(
    name: string,
    listen: string,
    protocol: string,
    scheduler: string,
    snatIP: string,
    backends: seq<BackendConfig>,
    healthCheck: HealthCheckConfig,
    fullNAT: bool)

  datatype Config = Config(logLevel: string, trafficInterval: string, services: seq<ServiceConfig>)

  ghost predicate UniqueNames(cfgs: seq<ServiceConfig>) {
    forall i, j | 0 <= i < j < |cfgs| :: cfgs[i].name != cfgs[j].name
  }
}
