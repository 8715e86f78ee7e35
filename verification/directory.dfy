/** The service directory: flattening the `services` array of the IANA RDAP
    bootstrap document (section 4 of RFC 9224) into a map from TLD to service
    URL. Each entry of the array is a list of lists of strings whose first
    list holds TLDs and whose second list holds service URLs. Fetching and
    decoding the document are outside the model: the decoded array is the
    input. */
module ServiceDirectory {
  import opened Results

  /** One element of `services`: `entry[0]` the TLDs, `entry[1]` the URLs. */
  type Entry = seq<seq<string>>

  /** The run-time panic a malformed entry causes, with the entry's index. */
  datatype Panic = IndexOutOfRange(entry: nat)

  /** The loop body evaluates `entry[0]` once and `entry[1][0]` once per TLD,
      so an entry can be processed without a panic exactly when it has a
      first list and, if that list is non-empty, a non-empty second list. */
  predicate Indexable(entry: Entry)
  {
    |entry| > 0 && (|entry[0]| > 0 ==> |entry| > 1 && |entry[1]| > 0)
  }

  /** Every TLD some entry of `services` lists in its first list. */
  ghost function ListedTlds(services: seq<Entry>): set<string>
  {
    set j, tld | 0 <= j < |services| && |services[j]| > 0 && tld in services[j][0] :: tld
  }

  /** Entry `j` is the last one that lists `tld`. */
  ghost predicate LastListing(services: seq<Entry>, tld: string, j: int)
  {
    && 0 <= j < |services|
    && |services[j]| > 0 && tld in services[j][0]
    && forall k :: j < k < |services| ==> !(|services[k]| > 0 && tld in services[k][0])
  }

  /** The inner loop: every TLD of `tlds` is (re)assigned `url`. */
  function AssignAll(values: map<string, string>, tlds: seq<string>, url: string): (r: map<string, string>)
    decreases |tlds|
    ensures r.Keys == values.Keys + set t | t in tlds
    ensures forall t :: t in tlds ==> r[t] == url
    ensures forall t :: t in values && t !in tlds ==> r[t] == values[t]
  {
    if |tlds| == 0 then values
    else AssignAll(values[tlds[0] := url], tlds[1..], url)
  }

  /** One pass of the outer loop: the TLDs of `entry` bound to its first URL. */
  function Absorb(values: map<string, string>, entry: Entry): map<string, string>
    requires Indexable(entry)
  {
    if |entry[0]| == 0 then values else AssignAll(values, entry[0], entry[1][0])
  }

  /** The flattening loop of `GetRdapServices`, entry by entry: a panic at the
      first malformed entry, otherwise the map in which every listed TLD is
      bound to the first URL of the LAST entry that lists it. */
  function Flatten(services: seq<Entry>): (r: Result<map<string, string>, Panic>)
    ensures r.Success? <==> forall j :: 0 <= j < |services| ==> Indexable(services[j])
    ensures r.Failure? ==>
      && r.error.entry < |services|
      && !Indexable(services[r.error.entry])
      && forall j :: 0 <= j < r.error.entry ==> Indexable(services[j])
    ensures r.Success? ==> r.value.Keys == ListedTlds(services)
    ensures r.Success? ==> forall tld :: tld in r.value ==>
      exists j :: LastListing(services, tld, j) && Indexable(services[j]) && r.value[tld] == services[j][1][0]
  {
    if |services| == 0 then Success(map[])
    else
      var n := |services| - 1;
      match Flatten(services[..n])
      case Failure(p) => Failure(p)
      case Success(values) =>
        var entry := services[n];
        if !Indexable(entry) then Failure(IndexOutOfRange(n))
        else
          FlattenStep(services, values);
          Success(Absorb(values, entry))
  }

  /** Appending the last entry keeps the key set and the last-listing
      description of the values. */
  lemma FlattenStep(services: seq<Entry>, values: map<string, string>)
    requires |services| > 0 && Indexable(services[|services| - 1])
    requires forall j :: 0 <= j < |services| ==> Indexable(services[j])
    requires values.Keys == ListedTlds(services[..|services| - 1])
    requires forall tld :: tld in values ==>
      exists j :: LastListing(services[..|services| - 1], tld, j) && Indexable(services[j]) && values[tld] == services[j][1][0]
    ensures var r := Absorb(values, services[|services| - 1]);
      r.Keys == ListedTlds(services)
    ensures var r := Absorb(values, services[|services| - 1]);
      forall tld :: tld in r ==>
      exists j :: LastListing(services, tld, j) && Indexable(services[j]) && r[tld] == services[j][1][0]
  {
    var r := Absorb(values, services[|services| - 1]);
    var n := |services| - 1;
    var prefix := services[..n];
    var entry := services[n];
    forall tld | tld in ListedTlds(services)
      ensures tld in r
    {
      var j :| 0 <= j < |services| && |services[j]| > 0 && tld in services[j][0];
      if j < n {
        assert |prefix[j]| > 0 && tld in prefix[j][0];
      }
    }
    forall tld | tld in r
      ensures tld in ListedTlds(services)
      ensures exists j :: LastListing(services, tld, j) && Indexable(services[j]) && r[tld] == services[j][1][0]
    {
      if tld in entry[0] {
        assert LastListing(services, tld, n);
      } else {
        var j :| LastListing(prefix, tld, j) && Indexable(services[j]) && values[tld] == services[j][1][0];
        assert LastListing(services, tld, j);
      }
    }
  }

  /** When two entries list the same TLD the later one decides its URL:
      the map does not keep the first match. */
  lemma LaterEntryWins()
    ensures Flatten([[["com"], ["https://first.example/"]], [["com"], ["https://second.example/"]]])
         == Success(map["com" := "https://second.example/"])
  {
    var first: Entry := [["com"], ["https://first.example/"]];
    var second: Entry := [["com"], ["https://second.example/"]];
    var services := [first, second];
    assert Indexable(services[0]) && Indexable(services[1]);
    var r := Flatten(services);
    var m := r.value;
    assert |services[1]| > 0 && "com" in services[1][0];
    assert "com" in m;
    var j :| LastListing(services, "com", j) && Indexable(services[j]) && m["com"] == services[j][1][0];
    assert j == 1;
    forall tld | tld in m
      ensures tld == "com"
    {
      var k :| 0 <= k < |services| && |services[k]| > 0 && tld in services[k][0];
    }
    assert m == map["com" := "https://second.example/"];
  }
}
