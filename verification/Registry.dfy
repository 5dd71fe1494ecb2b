/** Host resolution: which configured brand family a host belongs to, and where its trade app lives. */
module Registry {
  import opened Basics
  import opened Strings

  /** The routing part of one BRAND_OVERRIDES entry. */
  datatype BrandEntry = BrandEntry(tradeHost: Option<string>, tradeEnabled: Option<bool>)

  datatype Site = Site(
    domains: seq<string>,               // every configured apex, canonical first
    tradeSubdomain: Option<string>,     // the TRADE_SUBDOMAIN variable
    overrides: map<string, BrandEntry>, // BRAND_OVERRIDES by apex
    enabledByManifest: set<string>,     // apexes whose manifest declares tradeEnabled
    tradeDevOrigin: Authority,             // authority of TRADE_DEV_ORIGIN
    webDevOrigin: Authority                // authority of WEB_DEV_ORIGIN
  )

  /** Lower-case, without port, without a leading "www.". */
  function NormalizeHost(host: string): string {
    var bare := StripPort(Lower(Trim(host)));
    if "www." <= bare then bare[4..] else bare
  }

  /** The rest of a dotted quad, after `dots` dots and, if `inNumber`, at least one digit of the current number. */
  predicate DottedQuadFrom(s: string, dots: nat, inNumber: bool) {
    if s == "" then dots == 3 && inNumber
    else if IsDigit(s[0]) then DottedQuadFrom(s[1..], dots, true)
    else s[0] == '.' && inNumber && DottedQuadFrom(s[1..], dots + 1, false)
  }

  predicate IsLocalHost(host: string) {
    var n := StripPort(Lower(Trim(host)));
    n == "localhost" || "127.0.0.1" <= n || DottedQuadFrom(n, 0, false)
  }

  function LocalDevelopmentHost(host: string): Option<string> {
    var n := NormalizeHost(host);
    if EndsWith(n, ".localhost") then Some(n) else None
  }

  predicate WithinApex(host: string, apex: string) {
    host == apex || EndsWith(host, "." + apex)
  }

  function FamilyTradeEnabled(site: Site, apex: string): bool {
    if apex in site.overrides && site.overrides[apex].tradeEnabled.Some?
    then site.overrides[apex].tradeEnabled.value
    else apex in site.enabledByManifest
  }

  /** The label the registry puts before an apex; unlike the middleware's it falls back on an empty variable. */
  function RegistryLabel(site: Site): string {
    match site.tradeSubdomain
    case Some(v) => if v == "" then "trade" else Lower(Trim(v))
    case None => "trade"
  }

  function FamilyTradeHost(site: Site, family: string): string
    requires site.domains != []
  {
    if family in site.overrides && site.overrides[family].tradeHost.Some?
       && Trim(site.overrides[family].tradeHost.value) != ""
    then Lower(Trim(site.overrides[family].tradeHost.value))
    else if FamilyTradeEnabled(site, family) then RegistryLabel(site) + "." + family
    else RegistryLabel(site) + "." + site.domains[0]
  }
}
