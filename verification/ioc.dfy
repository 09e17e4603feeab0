/** The IP reputation lookup of threataggregator/ioc.py: one request per
    enabled service, each response mapped to a fixed-shape record. */
module Ioc {
  import opened Wrappers

  /** A decoded JSON document. */
  datatype Json =
    | JNull
    | JBool(b: bool)
    | JNum(n: int)
    | JStr(s: string)
    | JArr(items: seq<Json>)
    | JObj(fields: map<string, Json>)

  /** What Python raises while reading a response: `.get` on something that is
      not a dict, or `len` of something without a length. */
  datatype Crash = NotAnObject | NoLength

  /** The reputation services, in the order `check_ip` schedules them. */
  datatype Service = VirusTotal | AbuseIpdb | Otx | Talos

  /** The `source` string each service's records carry. */
  function SourceName(s: Service): string {
    match s
    case VirusTotal => "VirusTotal"
    case AbuseIpdb => "AbuseIPDB"
    case Otx => "OTX"
    case Talos => "Talos"
  }

  /** Position in the scheduling order. */
  function Rank(s: Service): nat {
    match s
    case VirusTotal => 0
    case AbuseIpdb => 1
    case Otx => 2
    case Talos => 3
  }

  /** One record of a lookup: an error marker carrying the HTTP status, or the
      service-specific fields. */
  datatype IocResult =
    | ServiceError(service: Service, status: int)
    | VtReport(malicious: Json, suspicious: Json)
    | AbuseReport(abuseConfidence: Json)
    | OtxReport(pulseCount: nat)
    | TalosReport(threatLevel: Json)
  {
    /** The service named by the record's `source` field. */
    function Origin(): Service {
      match this
      case ServiceError(s, _) => s
      case VtReport(_, _) => VirusTotal
      case AbuseReport(_) => AbuseIpdb
      case OtxReport(_) => Otx
      case TalosReport(_) => Talos
    }

    function Source(): string {
      SourceName(Origin())
    }
  }

  /** An HTTP response: its status and its decoded body. */
  datatype Response = Response(status: int, body: Json)

  /** `d.get(k, default)`. */
  function Get(d: Json, k: string, default: Json): Result<Json, Crash> {
    match d
    case JObj(m) => Success(if k in m then m[k] else default)
    case _ => Failure(NotAnObject)
  }

  /** `len(x)`. */
  function Len(x: Json): Result<nat, Crash> {
    match x
    case JArr(items) => Success(|items|)
    case JStr(s) => Success(|s|)
    case JObj(m) => Success(|m|)
    case _ => Failure(NoLength)
  }

  const Empty: Json := JObj(map[])

  /** What a walk down a key path finds: a value, a missing key on the way
      (through objects only), or a non-object where a key was to be looked up. */
  datatype Dug = Found(value: Json) | Missing | Broken

  /** The reference reading of a nested lookup. */
  function Dig(j: Json, path: seq<string>): Dug
    decreases |path|
  {
    if path == [] then Found(j)
    else match j
      case JObj(m) => if path[0] in m then Dig(m[path[0]], path[1..]) else Missing
      case _ => Broken
  }

  /** The value at `path`, or `default` when a key along it is missing. */
  function Lookup(j: Json, path: seq<string>, default: Json): Json {
    match Dig(j, path)
    case Found(x) => x
    case _ => default
  }

  /** One `.get(k, {})` step, then the rest of the path. */
  lemma DigStep(j: Json, k: string, rest: seq<string>, default: Json)
    requires rest != []
    ensures Get(j, k, Empty).Failure? ==> Dig(j, [k] + rest).Broken?
    ensures Get(j, k, Empty).Success? ==>
              Dig(j, [k] + rest) == Dig(Get(j, k, Empty).value, rest)
              && Lookup(j, [k] + rest, default) == Lookup(Get(j, k, Empty).value, rest, default)
  {
    assert ([k] + rest)[0] == k && ([k] + rest)[1..] == rest;
    if j.JObj? && k !in j.fields {
      assert rest == [rest[0]] + rest[1..];
    }
  }

  /** The final `.get(k, default)` of a path. */
  lemma DigLast(j: Json, k: string, default: Json)
    ensures Get(j, k, default).Failure? <==> Dig(j, [k]).Broken?
    ensures Get(j, k, default).Success? ==> Get(j, k, default).value == Lookup(j, [k], default)
  {
    assert [k][0] == k && [k][1..] == [];
  }

  /** `vt_check_ip` after the response arrived: a non-200 status gives the
      error marker; otherwise both counts are read under
      data.attributes.last_analysis_stats, 0 where any key on the way is missing. */
  function VtAdapter(resp: Response): (r: Result<IocResult, Crash>)
    ensures resp.status != 200 ==> r == Success(ServiceError(VirusTotal, resp.status))
    ensures resp.status == 200 ==>
              (r.Success? <==> !Dig(resp.body, ["data", "attributes", "last_analysis_stats", "malicious"]).Broken?)
    ensures resp.status == 200 && r.Success? ==>
              r.value == VtReport(
                Lookup(resp.body, ["data", "attributes", "last_analysis_stats", "malicious"], JNum(0)),
                Lookup(resp.body, ["data", "attributes", "last_analysis_stats", "suspicious"], JNum(0)))
  {
    if resp.status != 200 then Success(ServiceError(VirusTotal, resp.status))
    else
      var b := resp.body;
      DigStep(b, "data", ["attributes", "last_analysis_stats", "malicious"], JNum(0));
      DigStep(b, "data", ["attributes", "last_analysis_stats", "suspicious"], JNum(0));
      var data :- Get(b, "data", Empty);
      DigStep(data, "attributes", ["last_analysis_stats", "malicious"], JNum(0));
      DigStep(data, "attributes", ["last_analysis_stats", "suspicious"], JNum(0));
      var attributes :- Get(data, "attributes", Empty);
      DigStep(attributes, "last_analysis_stats", ["malicious"], JNum(0));
      DigStep(attributes, "last_analysis_stats", ["suspicious"], JNum(0));
      var stats :- Get(attributes, "last_analysis_stats", Empty);
      DigLast(stats, "malicious", JNum(0));
      DigLast(stats, "suspicious", JNum(0));
      if !stats.JObj? then Failure(NotAnObject)
      else Success(VtReport(Get(stats, "malicious", JNum(0)).value, Get(stats, "suspicious", JNum(0)).value))
  }

  /** `abuseipdb_check`: the confidence score under data, 0 when missing. */
  function AbuseAdapter(resp: Response): (r: Result<IocResult, Crash>)
    ensures resp.status != 200 ==> r == Success(ServiceError(AbuseIpdb, resp.status))
    ensures resp.status == 200 ==>
              (r.Success? <==> !Dig(resp.body, ["data", "abuseConfidenceScore"]).Broken?)
    ensures resp.status == 200 && r.Success? ==>
              r.value == AbuseReport(Lookup(resp.body, ["data", "abuseConfidenceScore"], JNum(0)))
  {
    if resp.status != 200 then Success(ServiceError(AbuseIpdb, resp.status))
    else
      DigStep(resp.body, "data", ["abuseConfidenceScore"], JNum(0));
      var data :- Get(resp.body, "data", Empty);
      DigLast(data, "abuseConfidenceScore", JNum(0));
      var score :- Get(data, "abuseConfidenceScore", JNum(0));
      Success(AbuseReport(score))
  }

  /** `otx_check_ip`: the length of pulse_info.pulses, 0 when missing. `len`
      counts a string's characters and an object's keys, and raises on a
      number, a boolean or null. */
  function OtxAdapter(resp: Response): (r: Result<IocResult, Crash>)
    ensures resp.status != 200 ==> r == Success(ServiceError(Otx, resp.status))
    ensures resp.status == 200 && Dig(resp.body, ["pulse_info", "pulses"]) == Missing ==>
              r == Success(OtxReport(0))
    ensures resp.status == 200 ==>
              forall items :: Dig(resp.body, ["pulse_info", "pulses"]) == Found(JArr(items)) ==>
                r == Success(OtxReport(|items|))
    ensures resp.status == 200 && Dig(resp.body, ["pulse_info", "pulses"]).Broken? ==> r == Failure(NotAnObject)
    ensures resp.status == 200 ==>
              forall x :: Dig(resp.body, ["pulse_info", "pulses"]) == Found(x) ==>
                && (x.JStr? ==> r == Success(OtxReport(|x.s|)))
                && (x.JObj? ==> r == Success(OtxReport(|x.fields|)))
                && (x.JNum? || x.JBool? || x.JNull? ==> r == Failure(NoLength))
  {
    if resp.status != 200 then Success(ServiceError(Otx, resp.status))
    else
      DigStep(resp.body, "pulse_info", ["pulses"], JArr([]));
      var info :- Get(resp.body, "pulse_info", Empty);
      DigLast(info, "pulses", JArr([]));
      var pulses :- Get(info, "pulses", JArr([]));
      var count :- Len(pulses);
      Success(OtxReport(count))
  }

  /** `talos_check_ip`: response.threat_level, "unknown" when missing. */
  function TalosAdapter(resp: Response): (r: Result<IocResult, Crash>)
    ensures resp.status != 200 ==> r == Success(ServiceError(Talos, resp.status))
    ensures resp.status == 200 ==>
              (r.Success? <==> !Dig(resp.body, ["response", "threat_level"]).Broken?)
    ensures resp.status == 200 && r.Success? ==>
              r.value == TalosReport(Lookup(resp.body, ["response", "threat_level"], JStr("unknown")))
  {
    if resp.status != 200 then Success(ServiceError(Talos, resp.status))
    else
      DigStep(resp.body, "response", ["threat_level"], JStr("unknown"));
      var response :- Get(resp.body, "response", Empty);
      DigLast(response, "threat_level", JStr("unknown"));
      var level :- Get(response, "threat_level", JStr("unknown"));
      Success(TalosReport(level))
  }

  /** The adapter of each service. Every record it returns names that service. */
  function Adapter(s: Service, resp: Response): (r: Result<IocResult, Crash>)
    ensures r.Success? ==> r.value.Origin() == s
    ensures resp.status != 200 ==> r == Success(ServiceError(s, resp.status))
  {
    match s
    case VirusTotal => VtAdapter(resp)
    case AbuseIpdb => AbuseAdapter(resp)
    case Otx => OtxAdapter(resp)
    case Talos => TalosAdapter(resp)
  }

  /** The three optional API keys as `os.getenv` returns them. */
  datatype Keys = Keys(vt: Option<string>, abuse: Option<string>, otx: Option<string>)

  /** Whether `check_ip` queries a service: Talos always, the others when their key is truthy. */
  predicate Enabled(keys: Keys, s: Service) {
    match s
    case VirusTotal => Truthy(keys.vt)
    case AbuseIpdb => Truthy(keys.abuse)
    case Otx => Truthy(keys.otx)
    case Talos => true
  }

  function KeyCount(keys: Keys): nat {
    (if Truthy(keys.vt) then 1 else 0)
    + (if Truthy(keys.abuse) then 1 else 0)
    + (if Truthy(keys.otx) then 1 else 0)
  }

  /** The task list of `check_ip`: the enabled services in the fixed order,
      Talos last, one more than the number of truthy keys. */
  function Plan(keys: Keys): (r: seq<Service>)
    ensures |r| == 1 + KeyCount(keys)
    ensures r[|r| - 1] == Talos
    ensures forall s :: s in r <==> Enabled(keys, s)
    ensures forall i, j :: 0 <= i < j < |r| ==> Rank(r[i]) < Rank(r[j])
  {
    (if Truthy(keys.vt) then [VirusTotal] else [])
    + (if Truthy(keys.abuse) then [AbuseIpdb] else [])
    + (if Truthy(keys.otx) then [Otx] else [])
    + [Talos]
  }

  /** The gathered adapter results, in task order; a raising adapter makes
      the whole gather raise. */
  function RunAll(plan: seq<Service>, ip: string, respond: (Service, string) -> Response): (r: Result<seq<IocResult>, Crash>)
    ensures r.Success? <==> forall i :: 0 <= i < |plan| ==> Adapter(plan[i], respond(plan[i], ip)).Success?
    ensures r.Success? ==> |r.value| == |plan|
    ensures r.Success? ==> forall i :: 0 <= i < |plan| ==> r.value[i] == Adapter(plan[i], respond(plan[i], ip)).value
  {
    if plan == [] then Success([])
    else
      var first :- Adapter(plan[0], respond(plan[0], ip));
      var rest :- RunAll(plan[1..], ip, respond);
      Success([first] + rest)
  }

  /** `check_ip`: `respond` stands for the network, answering each service's
      request for `ip`. The results follow the plan: one per enabled service,
      each naming its service, Talos last. */
  function CheckIp(ip: string, keys: Keys, respond: (Service, string) -> Response): (r: Result<seq<IocResult>, Crash>)
    ensures r.Success? ==> |r.value| == 1 + KeyCount(keys)
    ensures r.Success? ==> forall i :: 0 <= i < |r.value| ==> r.value[i].Origin() == Plan(keys)[i]
    ensures r.Success? ==> r.value[|r.value| - 1].Origin() == Talos
    ensures r.Success? ==> forall i :: 0 <= i < |r.value| ==>
              var s := Plan(keys)[i];
              Adapter(s, respond(s, ip)).Success? && r.value[i] == Adapter(s, respond(s, ip)).value
    ensures r.Failure? <==> exists s :: Enabled(keys, s) && Adapter(s, respond(s, ip)).Failure?
  {
    var plan := Plan(keys);
    var r := RunAll(plan, ip, respond);
    assert r.Failure? ==> exists i :: 0 <= i < |plan| && Adapter(plan[i], respond(plan[i], ip)).Failure?;
    assert forall s :: Enabled(keys, s) ==> exists i :: 0 <= i < |plan| && plan[i] == s by {
      forall s | Enabled(keys, s) ensures exists i :: 0 <= i < |plan| && plan[i] == s {
        assert s in plan;
      }
    }
    r
  }

  lemma {:induction false} RunAllReadsOnlyPlan(plan: seq<Service>, ip: string, respond1: (Service, string) -> Response, respond2: (Service, string) -> Response)
    requires forall s :: s in plan ==> respond1(s, ip) == respond2(s, ip)
    ensures RunAll(plan, ip, respond1) == RunAll(plan, ip, respond2)
  {
    if plan != [] {
      assert plan[0] in plan;
      RunAllReadsOnlyPlan(plan[1..], ip, respond1, respond2);
    }
  }

  /** A service whose key is missing or empty is never queried: answers for
      disabled services cannot change the lookup. */
  lemma DisabledServicesNotQueried(ip: string, keys: Keys, respond1: (Service, string) -> Response, respond2: (Service, string) -> Response)
    requires forall s :: Enabled(keys, s) ==> respond1(s, ip) == respond2(s, ip)
    ensures CheckIp(ip, keys, respond1) == CheckIp(ip, keys, respond2)
  {
    RunAllReadsOnlyPlan(Plan(keys), ip, respond1, respond2);
  }

  /** With no key set and Talos answering 200, the lookup returns exactly one
      record, from Talos, without an error field. */
  lemma TalosOnlyLookup(ip: string, respond: (Service, string) -> Response)
    requires respond(Talos, ip).status == 200
    requires var body := respond(Talos, ip).body;
             body.JObj? && ("response" in body.fields ==> body.fields["response"].JObj?)
    ensures var r := CheckIp(ip, Keys(None, None, None), respond);
            r.Success? && |r.value| == 1 && r.value[0].TalosReport?
  {
    var resp := respond(Talos, ip);
    assert TalosAdapter(resp).Success? by {
      DigStep(resp.body, "response", ["threat_level"], JStr("unknown"));
      DigLast(Get(resp.body, "response", Empty).value, "threat_level", JStr("unknown"));
      assert ["response"] + ["threat_level"] == ["response", "threat_level"];
    }
    var keys := Keys(None, None, None);
    assert Plan(keys) == [Talos];
    assert RunAll([Talos], ip, respond).Success?;
  }

  /** The outcome of the `ioc` command. */
  datatype IocOutcome = InvalidIp | Checked(results: Result<seq<IocResult>, Crash>)

  /** The `ioc` command: `validate_ip` first, and no request at all when it
      fails. `isIpLiteral` stands for `ipaddress.ip_address` not raising. */
  function RunIocCommand(ip: string, keys: Keys, isIpLiteral: string -> bool, respond: (Service, string) -> Response): (r: IocOutcome)
    ensures r.InvalidIp? <==> !isIpLiteral(ip)
    ensures isIpLiteral(ip) ==> r == Checked(CheckIp(ip, keys, respond))
  {
    if !isIpLiteral(ip) then InvalidIp else Checked(CheckIp(ip, keys, respond))
  }
}
