/** The `check` command: collect the domain names, look each one up in
    input order, keep the successful lookups. Reading standard input, the
    environment, the RDAP server and the IANA document are inputs here;
    printing the results is outside the model. */
module CheckCommand {
  import opened Results
  import opened GoStrings
  import opened Tld
  import opened ServiceDirectory
  import opened Rdap
  import opened Lookup

  /** The command-level errors of input collection. */
  datatype InputError =
    | StdinFailed(reason: string)  // reading a line from standard input failed
    | NoDomains                    // every source came up empty

  /** How a run of the command ends. */
  datatype Outcome<T> =
    | Completed(results: seq<DomainInfo<T>>)
    | InputFailed(error: InputError)
    | Crashed(panic: Panic)

  /** The domains the environment variable contributes: none when `--env` is
      absent (`None`) or names an empty or unset variable (`Some("")`),
      otherwise its comma-separated pieces. */
  function EnvPieces(env: Option<string>): (pieces: seq<string>)
    ensures pieces == [] <==> env.None? || env.value == ""
    ensures pieces != [] ==> Join(pieces, ',') == env.value
    ensures forall i :: 0 <= i < |pieces| ==> ',' !in pieces[i]
  {
    if env.None? || env.value == "" then [] else Split(env.value, ',')
  }

  /** Input collection: the `--domain` list, then the pieces of the
      environment variable; standard input is read only when both gave
      nothing, and a blank line gives nothing. */
  function CollectDomains(flagDomains: seq<string>, env: Option<string>, stdin: Result<string, string>)
    : (r: Result<seq<string>, InputError>)
    ensures |flagDomains + EnvPieces(env)| > 0 ==> r == Success(flagDomains + EnvPieces(env))
    ensures (r.Failure? && r.error.StdinFailed?) <==>
      |flagDomains| == 0 && EnvPieces(env) == [] && stdin.Failure?
    ensures r.Failure? && r.error.StdinFailed? ==> stdin.Failure? && r.error.reason == stdin.error
    ensures r == Failure(NoDomains) <==>
      && |flagDomains| == 0 && EnvPieces(env) == [] && stdin.Success?
      && forall k :: 0 <= k < |stdin.value| ==> IsSpace(stdin.value[k])
    ensures |flagDomains| == 0 && EnvPieces(env) == [] && r.Success? ==>
      && stdin.Success?
      && |r.value| > 0
      && Join(r.value, ',') == TrimSpace(stdin.value)
      && forall i :: 0 <= i < |r.value| ==> ',' !in r.value[i]
    ensures r.Success? ==> |r.value| > 0
  {
    var given := flagDomains + EnvPieces(env);
    if |given| > 0 then Success(given)
    else if stdin.Failure? then Failure(StdinFailed(stdin.error))
    else
      var line := TrimSpace(stdin.value);
      if line == "" then Failure(NoDomains) else Success(Split(line, ','))
  }

  /** Standard input is not consulted once the flag or the environment
      supplied a domain. */
  lemma StdinOnlyAsFallback(flagDomains: seq<string>, env: Option<string>, s1: Result<string, string>, s2: Result<string, string>)
    requires |flagDomains| > 0 || EnvPieces(env) != []
    ensures CollectDomains(flagDomains, env, s1) == CollectDomains(flagDomains, env, s2)
  {
  }

  lemma EnvListExample()
    ensures EnvPieces(Some("a.com,b.org")) == ["a.com", "b.org"]
  {
    var parts := ["a.com", "b.org"];
    assert Join(parts, ',') == "a.com,b.org";
    assert forall i :: 0 <= i < |parts| ==> forall k :: 0 <= k < |parts[i]| ==> parts[i][k] != ',';
    SplitJoin(parts, ',');
  }

  /** The result loop: every domain in input order, failures skipped. */
  function ResultLoop<T>(domains: seq<string>, lookup: string -> Result<DomainInfo<T>, LookupError>)
    : (results: seq<DomainInfo<T>>)
    ensures |results| <= |domains|
    ensures forall i :: 0 <= i < |results| ==> exists d :: d in domains && lookup(d) == Success(results[i])
    ensures forall d :: d in domains && lookup(d).Success? ==> lookup(d).value in results
  {
    if |domains| == 0 then []
    else
      var n := |domains| - 1;
      var earlier := ResultLoop(domains[..n], lookup);
      assert forall d :: d in domains <==> d in domains[..n] || d == domains[n];
      match lookup(domains[n])
      case Success(x) => earlier + [x]
      case Failure(_) => earlier
  }

  /** The loop over a concatenation is the concatenation of the loops: the
      survivors keep their input order. */
  lemma {:induction false} ResultLoopAppend<T>(a: seq<string>, b: seq<string>, lookup: string -> Result<DomainInfo<T>, LookupError>)
    ensures ResultLoop(a + b, lookup) == ResultLoop(a, lookup) + ResultLoop(b, lookup)
    decreases |b|
  {
    if |b| == 0 {
      assert a + b == a;
    } else {
      var n := |b| - 1;
      assert (a + b)[..|a + b| - 1] == a + b[..n];
      assert (a + b)[|a + b| - 1] == b[n];
      ResultLoopAppend(a, b[..n], lookup);
      var tail := if lookup(b[n]).Success? then [lookup(b[n]).value] else [];
      assert ResultLoop(b, lookup) == ResultLoop(b[..n], lookup) + tail;
      assert ResultLoop(a + b, lookup) == ResultLoop(a + b[..n], lookup) + tail;
    }
  }

  /** When every lookup succeeds the results are one per domain, in order. */
  lemma {:induction false} AllSucceed<T>(domains: seq<string>, lookup: string -> Result<DomainInfo<T>, LookupError>)
    requires forall d :: lookup(d).Success? ==> lookup(d).value.domainName == d
    requires forall i :: 0 <= i < |domains| ==> lookup(domains[i]).Success?
    ensures var results := ResultLoop(domains, lookup);
      |results| == |domains| && forall i :: 0 <= i < |domains| ==> results[i].domainName == domains[i]
  {
    if |domains| > 0 {
      var n := |domains| - 1;
      AllSucceed(domains[..n], lookup);
      var earlier := ResultLoop(domains[..n], lookup);
      assert lookup(domains[n]).Success?;
      assert ResultLoop(domains, lookup) == earlier + [lookup(domains[n]).value];
    }
  }

  /** A domain whose lookup fails leaves no trace in the results. */
  lemma FailedDomainsDropped<T>(domains: seq<string>, lookup: string -> Result<DomainInfo<T>, LookupError>, d: string)
    requires forall e :: lookup(e).Success? ==> lookup(e).value.domainName == e
    requires lookup(d).Failure?
    ensures var results := ResultLoop(domains, lookup);
      forall i :: 0 <= i < |results| ==> results[i].domainName != d
  {
  }

  /** The whole command. `directory` is the decoded `services` array of the
      IANA document, `query` the RDAP client's answer per domain name. The
      directory is flattened before the first lookup, so a malformed one
      ends the run in a panic. */
  function Check<T>(flagDomains: seq<string>, env: Option<string>, stdin: Result<string, string>,
                    directory: seq<Entry>, query: string -> Result<DomainObject, string>,
                    parse: string -> Option<T>, zero: T)
    : (r: Outcome<T>)
    ensures r.InputFailed? <==> CollectDomains(flagDomains, env, stdin).Failure?
    ensures r.InputFailed? ==> r.error == CollectDomains(flagDomains, env, stdin).error
    ensures r.Crashed? <==>
      CollectDomains(flagDomains, env, stdin).Success? && exists j :: 0 <= j < |directory| && !Indexable(directory[j])
    ensures r.Completed? ==>
      && CollectDomains(flagDomains, env, stdin).Success?
      && |r.results| <= |CollectDomains(flagDomains, env, stdin).value|
      && forall i :: 0 <= i < |r.results| ==>
           && r.results[i].domainName in CollectDomains(flagDomains, env, stdin).value
           && ExtractTLD(r.results[i].domainName) in ListedTlds(directory)
           && query(r.results[i].domainName).Success?
    ensures r.Completed? ==> forall i :: 0 <= i < |r.results| ==>
      && query(r.results[i].domainName).Success?
      && r.results[i].registrar == RegistrarName(query(r.results[i].domainName).value.entities)
      && ExpiryDate(query(r.results[i].domainName).value.events, parse, zero) == Success(r.results[i].expiry)
      && !r.results[i].failed
    ensures r.Completed? ==> forall d ::
      && d in CollectDomains(flagDomains, env, stdin).value
      && ExtractTLD(d) in ListedTlds(directory)
      && query(d).Success?
      && ExpiryDate(query(d).value.events, parse, zero).Success?
      ==> Reports(r.results, d)
  {
    match CollectDomains(flagDomains, env, stdin)
    case Failure(e) => InputFailed(e)
    case Success(domains) =>
      match Flatten(directory)
      case Failure(p) => Crashed(p)
      case Success(services) =>
        LookupsReported(domains, services, query, parse, zero);
        Completed(ResultLoop(domains, LookupWith(services, query, parse, zero)))
  }

  /** Some result carries the domain name `d`. */
  predicate Reports<T>(results: seq<DomainInfo<T>>, d: string)
  {
    exists i :: 0 <= i < |results| && results[i].domainName == d
  }

  /** Every domain whose TLD is a key and whose RDAP step succeeds is
      reported. */
  lemma LookupsReported<T>(domains: seq<string>, services: map<string, string>,
                           query: string -> Result<DomainObject, string>, parse: string -> Option<T>, zero: T)
    ensures forall d ::
        && d in domains
        && ExtractTLD(d) in services
        && query(d).Success?
        && ExpiryDate(query(d).value.events, parse, zero).Success?
        ==> Reports(ResultLoop(domains, LookupWith(services, query, parse, zero)), d)
  {
    forall d | d in domains && ExtractTLD(d) in services && query(d).Success?
                 && ExpiryDate(query(d).value.events, parse, zero).Success?
      ensures Reports(ResultLoop(domains, LookupWith(services, query, parse, zero)), d)
    {
      LookupReported(domains, services, query, parse, zero, d);
    }
  }

  /** One domain of `LookupsReported`: its lookup succeeds and keeps its name. */
  lemma LookupReported<T>(domains: seq<string>, services: map<string, string>,
                          query: string -> Result<DomainObject, string>, parse: string -> Option<T>, zero: T, d: string)
    requires d in domains && ExtractTLD(d) in services && query(d).Success?
    requires ExpiryDate(query(d).value.events, parse, zero).Success?
    ensures Reports(ResultLoop(domains, LookupWith(services, query, parse, zero)), d)
  {
    var lookup := LookupWith(services, query, parse, zero);
    var info := GetDomainInfo(d, services, query(d), parse, zero);
    assert info.Success? && info.value.domainName == d;
    assert lookup(d) == info;
    SurvivorReported(domains, lookup, d);
  }

  /** A domain whose lookup succeeds has its info among the results. */
  lemma SurvivorReported<T>(domains: seq<string>, lookup: string -> Result<DomainInfo<T>, LookupError>, d: string)
    requires d in domains && lookup(d).Success?
    ensures exists i :: 0 <= i < |ResultLoop(domains, lookup)| && ResultLoop(domains, lookup)[i] == lookup(d).value
  {
    var results := ResultLoop(domains, lookup);
    assert lookup(d).value in results;
  }

  /** Checking the flag list `a + b` reports the results for `a` followed by
      those for `b`: the survivors keep their input order. */
  lemma CheckKeepsInputOrder<T>(a: seq<string>, b: seq<string>, stdin: Result<string, string>,
                                directory: seq<Entry>, query: string -> Result<DomainObject, string>,
                                parse: string -> Option<T>, zero: T)
    requires |a| > 0 && |b| > 0
    requires forall j :: 0 <= j < |directory| ==> Indexable(directory[j])
    ensures Check(a + b, None, stdin, directory, query, parse, zero)
         == Completed(Check(a, None, stdin, directory, query, parse, zero).results
                      + Check(b, None, stdin, directory, query, parse, zero).results)
  {
    assert a + b + [] == a + b && a + [] == a && b + [] == b;
    var lookup := LookupWith(Flatten(directory).value, query, parse, zero);
    ResultLoopAppend(a, b, lookup);
  }

  /** The lookup the result loop applies to each domain. */
  function LookupWith<T>(services: map<string, string>, query: string -> Result<DomainObject, string>,
                         parse: string -> Option<T>, zero: T)
    : string -> Result<DomainInfo<T>, LookupError>
  {
    d => GetDomainInfo(d, services, query(d), parse, zero)
  }

  /** Two domains of which only the first is looked up successfully leave
      one result. */
  lemma ResultLoopOfPair<T>(a: string, b: string, lookup: string -> Result<DomainInfo<T>, LookupError>)
    requires lookup(a).Success? && lookup(b).Failure?
    ensures ResultLoop([a, b], lookup) == [lookup(a).value]
  {
    assert [a, b][..1] == [a] && [a][..0] == [];
  }

  /** The single-entry directory used below binds "com" and nothing else. */
  lemma ComOnlyDirectory(url: string)
    ensures var r := Flatten([[["com"], [url]]]);
      r.Success? && "com" in r.value && "zz" !in r.value
  {
    var directory: seq<Entry> := [[["com"], [url]]];
    assert Indexable(directory[0]);
    assert |directory[0]| > 0 && "com" in directory[0][0];
    assert "zz" !in ListedTlds(directory) by {
      assert "zz" !in directory[0][0];
    }
  }

  /** "example.com" against a map that has "com" goes through to the RDAP step. */
  lemma ComDomainIsLookedUp<T>(services: map<string, string>, query: string -> Result<DomainObject, string>,
                         parse: string -> Option<T>, zero: T, t: T)
    requires "com" in services
    requires query("example.com") == Success(DomainObject([Entity(["registrar"], "Example Registrar")],
                                                          [Event("expiration", "2030-01-01T00:00:00Z")]))
    requires parse("2030-01-01T00:00:00Z") == Some(t)
    ensures LookupWith(services, query, parse, zero)("example.com")
         == Success(DomainInfo("example.com", "Example Registrar", t, false))
  {
    TldOfDottedName();
    RegistrarAndExpiryPicked(query("example.com"), parse, zero, t);
  }

  /** "example.zz" against a map without "zz" has no RDAP service. */
  lemma ZzDomainHasNoService<T>(services: map<string, string>, query: string -> Result<DomainObject, string>,
                           parse: string -> Option<T>, zero: T)
    requires "zz" !in services
    ensures LookupWith(services, query, parse, zero)("example.zz") == Failure(NoRdapService("example.zz"))
  {
    TldAfterLastDot("example", "zz");
    assert "example.zz" == "example" + ['.'] + "zz";
  }

  /** An answer with one registrar entity and one parsable expiration event
      yields that registrar's name and the parsed instant. */
  lemma RegistrarAndExpiryPicked<T>(answer: Result<DomainObject, string>, parse: string -> Option<T>, zero: T, t: T)
    requires answer == Success(DomainObject([Entity(["registrar"], "Example Registrar")],
                                            [Event("expiration", "2030-01-01T00:00:00Z")]))
    requires parse("2030-01-01T00:00:00Z") == Some(t)
    ensures GetRdap("example.com", answer, parse, zero)
         == Success(DomainInfo("example.com", "Example Registrar", t, false))
  {
    var domain := answer.value;
    assert FirstRegistrarAt(domain.entities, 0);
    assert FirstExpirationAt(domain.events, 0);
  }

  /** A run over "example.com" and "example.zz" against a directory that
      only lists "com": the first domain is reported with its registrar and
      expiry, the second is skipped without failing the run. */
  lemma UnlistedTldIsSkipped<T>(query: string -> Result<DomainObject, string>, parse: string -> Option<T>, zero: T, t: T)
    requires query("example.com") == Success(DomainObject([Entity(["registrar"], "Example Registrar")],
                                                          [Event("expiration", "2030-01-01T00:00:00Z")]))
    requires parse("2030-01-01T00:00:00Z") == Some(t)
    ensures Check(["example.com", "example.zz"], None, Failure("unused"),
                  [[["com"], ["https://rdap.example/"]]], query, parse, zero)
         == Completed([DomainInfo("example.com", "Example Registrar", t, false)])
  {
    var domains := ["example.com", "example.zz"];
    assert EnvPieces(None) == [];
    assert domains + [] == domains;
    ComOnlyDirectory("https://rdap.example/");
    var services := Flatten([[["com"], ["https://rdap.example/"]]]).value;
    ComDomainIsLookedUp(services, query, parse, zero, t);
    ZzDomainHasNoService(services, query, parse, zero);
    ResultLoopOfPair("example.com", "example.zz", LookupWith(services, query, parse, zero));
  }

  /** With no flag, no usable variable and a blank line on standard input
      the command fails with "no domain names provided" before any lookup. */
  lemma NothingToCheck<T>(env: Option<string>, line: string, directory: seq<Entry>,
                          query: string -> Result<DomainObject, string>, parse: string -> Option<T>, zero: T)
    requires env == None || env == Some("")
    requires forall k :: 0 <= k < |line| ==> IsSpace(line[k])
    ensures Check([], env, Success(line), directory, query, parse, zero) == InputFailed(NoDomains)
  {
  }
}
