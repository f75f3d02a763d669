/** The routing contract the four routers share, and what they check of it alike. */
module Routing {
  import opened Text
  import opened Wrappers

  datatype Endpoint = Endpoint(name: string, url: string, weight: int)

  datatype Config = Config(service: string, stage: string, hostname: string, strategy: string,
                           healthPath: string, ttl: int, endpoints: seq<Endpoint>)

  datatype Action = Action(resource: string, action: string, name: string, detail: string)

  predicate IsFailover(r: Config) {
    Lower(TrimSpace(r.strategy)) == "failover" && |r.endpoints| == 2
  }

  function Normalize(name: string): string {
    TrimSuffix(Lower(TrimSpace(name)), ".")
  }

  /** The host name an endpoint's URL leads to; `host` stands for the URL parser, "" for a URL
      without a host. */
  function Target(url: string, host: string -> string): Option<string> {
    var trimmed := TrimSpace(url);
    if trimmed == "" then None
    else
      var target := Normalize(if host(trimmed) != "" then host(trimmed) else trimmed);
      if target == "" || '/' in target then None else Some(target)
  }

  /** Equal but for case, spaces around and one final dot. */
  predicate SameName(a: string, b: string) {
    Undotted(Lower(TrimSpace(a))) == Undotted(Lower(TrimSpace(b)))
  }

  lemma NormalizeIff(a: string, b: string)
    ensures Normalize(a) == Normalize(b) <==> SameName(a, b)
  {
    hide TrimSpace, Lower;
    Undots(Lower(TrimSpace(a)));
    Undots(Lower(TrimSpace(b)));
  }

  /** The name of the URL's host, or of the URL itself if it has none; not a path. */
  predicate LeadsToName(url: string, host: string -> string, name: string) {
    && TrimSpace(url) != "" && name != "" && '/' !in name
    && name == Undotted(Lower(TrimSpace(if host(TrimSpace(url)) != "" then host(TrimSpace(url)) else TrimSpace(url))))
  }

  lemma TargetIff(url: string, host: string -> string, name: string)
    ensures Target(url, host) == Some(name) <==> LeadsToName(url, host, name)
  {
    hide TrimSpace, Lower;
    Undots(Lower(TrimSpace(if host(TrimSpace(url)) != "" then host(TrimSpace(url)) else TrimSpace(url))));
  }

  predicate HasTarget(ep: Endpoint, host: string -> string) {
    Target(ep.url, host).Some?
  }

  predicate Valid(r: Config, host: string -> string) {
    TrimSpace(r.hostname) != "" && r.endpoints != [] && forall ep | ep in r.endpoints :: HasTarget(ep, host)
  }
}
