/** The custom resources as the operator's handlers receive them. */
module Objects {
  import opened Wrappers

  datatype MatchType = Exact | Prefix | Regex

  datatype Condition =
    | MatchPath(path: string, kind: MatchType)
    | MatchHeader(name: string, value: string, kind: MatchType)

  /** All conditions of a rule must hold. */
  type Rule = seq<Condition>

  /** An entry of `providerParameter.rules`: with a `match`, without one, or one that does not validate. */
  datatype RawRule = Matching(rule: Rule) | NoMatch | Invalid

  /**
    A GefyraBridge. `endpoints` is `clusterEndpoint`, which the schema gives no default; `rules` is
    `providerParameter.rules`, which the client omits for a bridge without rules.
   */
  datatype Bridge = Bridge(
    name: string,
    client: string,
    destinationIP: string,
    portMappings: seq<string>,
    endpoints: Option<map<string, string>>,
    rules: Option<seq<RawRule>>)

  /** `bridge.clusterEndpoint`, empty where it has not been written yet. */
  function EndpointsOf(b: Bridge): map<string, string> {
    match b.endpoints
    case Some(m) => m
    case None => map[]
  }

  /** `_patch_object({"clusterEndpoint": {key: value}})`: a merge patch. */
  function PatchEndpoint(b: Bridge, key: string, value: string): Bridge {
    b.(endpoints := Some(EndpointsOf(b)[key := value]))
  }
}
