/** `GetDomainInfo`: a domain is handed to the RDAP step only when its TLD
    is a key of the service map. The URL bound to the key is not used: the
    RDAP client finds its server by itself. */
module Lookup {
  import opened Results
  import opened Tld
  import opened Rdap

  function GetDomainInfo<T>(domainName: string, services: map<string, string>,
                            answer: Result<DomainObject, string>, parse: string -> Option<T>, zero: T)
    : (r: Result<DomainInfo<T>, LookupError>)
    ensures r == Failure(NoRdapService(domainName)) <==> ExtractTLD(domainName) !in services
    ensures ExtractTLD(domainName) in services ==> r == GetRdap(domainName, answer, parse, zero)
    ensures r.Success? ==> r.value.domainName == domainName
  {
    var tld := ExtractTLD(domainName);
    if tld in services then GetRdap(domainName, answer, parse, zero)
    else Failure(NoRdapService(domainName))
  }

  /** Only the key set of the service map matters. */
  lemma OnlyServiceKeysMatter<T>(domainName: string, s1: map<string, string>, s2: map<string, string>,
                                 answer: Result<DomainObject, string>, parse: string -> Option<T>, zero: T)
    requires s1.Keys == s2.Keys
    ensures GetDomainInfo(domainName, s1, answer, parse, zero) == GetDomainInfo(domainName, s2, answer, parse, zero)
  {
  }
}
