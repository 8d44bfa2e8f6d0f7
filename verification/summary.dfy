/** Stage summaries: what ingest distils from a batch of observations, and how the gateway folds batches
    into the summary stored on the task. */
module Summary {
  import opened Lists
  import opened Text

  datatype ObsType =
    | Subdomain | Wildcard | DnsRecord | Address | Service | Http | Tls | Tech | Screenshot | Path | Finding

  datatype Observation = Observation(kind: ObsType, domain: string, rtype: string, value: string, ip: string, port: int)

  datatype IPPort = IPPort(ip: string, port: int)

  datatype StageSummary = StageSummary(
    domains: seq<string>, ips: seq<string>, services: seq<IPPort>, webURLs: seq<string>)

  const EMPTY := StageSummary([], [], [], [])

  // ---- what one observation reports ----

  function DomainsOf(o: Observation): seq<string> {
    if o.kind.Subdomain? && o.domain != "" then [o.domain] else []
  }

  function AddressesOf(o: Observation): seq<string> {
    if o.kind.DnsRecord? && (o.rtype == "A" || o.rtype == "AAAA") then [o.value]
    else if o.kind.Address? then [o.ip]
    else []
  }

  function ServicesOf(o: Observation): seq<IPPort> {
    if o.kind.Service? && o.ip != "" then [IPPort(o.ip, o.port)] else []
  }

  function UrlFor(o: Observation): string {
    if o.ip == "" || o.port == 0 then ""
    else (if o.port == 443 || o.port == 8443 then "https" else "http") + "://" + o.ip + ":" + Itoa(o.port)
  }

  function URLsOf(o: Observation): seq<string> {
    if o.kind.Http? && UrlFor(o) != "" then [UrlFor(o)] else []
  }

  /** Everything a list of observations reports, repetitions and all. */
  function Gather<T>(obs: seq<Observation>, f: Observation -> seq<T>): seq<T> {
    if obs == [] then [] else Gather(obs[..|obs| - 1], f) + f(obs[|obs| - 1])
  }

  function Summarize(obs: seq<Observation>): StageSummary {
    StageSummary(Distinct(Gather(obs, DomainsOf)), Distinct(Gather(obs, AddressesOf)),
                 Distinct(Gather(obs, ServicesOf)), Distinct(Gather(obs, URLsOf)))
  }

  function MergeSummary(cur: StageSummary, add: StageSummary): StageSummary {
    StageSummary(Merge(cur.domains, add.domains), Merge(cur.ips, add.ips),
                 Merge(cur.services, add.services), Merge(cur.webURLs, add.webURLs))
  }

  lemma {:induction false} GatherConcat<T>(a: seq<Observation>, b: seq<Observation>, f: Observation -> seq<T>)
    ensures Gather(a + b, f) == Gather(a, f) + Gather(b, f)
  {
    if b == [] {
      assert a + b == a;
    } else {
      assert (a + b)[..|a + b| - 1] == a + b[..|b| - 1];
      GatherConcat(a, b[..|b| - 1], f);
    }
  }

  lemma MergeGathered<T>(a: seq<Observation>, b: seq<Observation>, f: Observation -> seq<T>)
    ensures Merge(Distinct(Gather(a, f)), Distinct(Gather(b, f))) == Distinct(Gather(a + b, f))
  {
    GatherConcat(a, b, f);
    MergeDistinct(Distinct(Gather(a, f)), Gather(b, f));
    MergeInTwo([], Gather(a, f), Gather(b, f));
  }

  /** Summarizing is a homomorphism: merging the summaries of two batches is summarizing both at once. */
  lemma MergeOfSummaries(a: seq<Observation>, b: seq<Observation>)
    ensures MergeSummary(Summarize(a), Summarize(b)) == Summarize(a + b)
  {
    MergeGathered(a, b, DomainsOf);
    MergeGathered(a, b, AddressesOf);
    MergeGathered(a, b, ServicesOf);
    MergeGathered(a, b, URLsOf);
  }

  // ---- batches ----

  function Flatten(batches: seq<seq<Observation>>): seq<Observation> {
    if batches == [] then [] else Flatten(batches[..|batches| - 1]) + batches[|batches| - 1]
  }

  /** The summary stored on the task after the gateway has ingested the batches one by one. */
  function Folded(batches: seq<seq<Observation>>): StageSummary {
    if batches == [] then EMPTY
    else MergeSummary(Folded(batches[..|batches| - 1]), Summarize(batches[|batches| - 1]))
  }

  /** However the observations are cut into batches, the stored summary is that of the whole list. */
  lemma {:induction false} CuttingMakesNoDifference(batches: seq<seq<Observation>>)
    ensures Folded(batches) == Summarize(Flatten(batches))
  {
    if batches != [] {
      var n := |batches| - 1;
      CuttingMakesNoDifference(batches[..n]);
      MergeOfSummaries(Flatten(batches[..n]), batches[n]);
    }
  }

  /** The same, where the task already has a summary from an earlier attempt. */
  function FoldedOnto(prior: StageSummary, batches: seq<seq<Observation>>): StageSummary {
    if batches == [] then prior
    else MergeSummary(FoldedOnto(prior, batches[..|batches| - 1]), Summarize(batches[|batches| - 1]))
  }

  /** What earlier attempts observed stays in front. */
  lemma {:induction false} FoldedOntoEarlier(earlier: seq<Observation>, batches: seq<seq<Observation>>)
    ensures FoldedOnto(Summarize(earlier), batches) == Summarize(earlier + Flatten(batches))
  {
    if batches == [] {
      assert earlier + Flatten(batches) == earlier;
    } else {
      var before, last := batches[..|batches| - 1], batches[|batches| - 1];
      FoldedOntoEarlier(earlier, before);
      MergeOfSummaries(earlier + Flatten(before), last);
      Associative(earlier, Flatten(before), last);
    }
  }

  /** Two lists with one summary have one summary behind anything else, too. */
  lemma SameBehind(earlier: seq<Observation>, a: seq<Observation>, b: seq<Observation>)
    requires Summarize(a) == Summarize(b)
    ensures Summarize(earlier + a) == Summarize(earlier + b)
  {
    MergeOfSummaries(earlier, a);
    MergeOfSummaries(earlier, b);
  }

  lemma {:induction false} GatherPart<T>(whole: seq<Observation>, part: seq<Observation>, f: Observation -> seq<T>)
    requires forall o :: o in part ==> o in whole
    ensures forall x :: x in Gather(part, f) ==> x in Gather(whole, f)
    decreases |part|
  {
    if part != [] {
      var o := part[|part| - 1];
      assert o in part;
      assert forall p :: p in part[..|part| - 1] ==> p in part;
      GatherPart(whole, part[..|part| - 1], f);
      GatherMember(whole, o, f);
    }
  }

  lemma {:induction false} GatherMember<T>(whole: seq<Observation>, o: Observation, f: Observation -> seq<T>)
    requires o in whole
    ensures forall x :: x in f(o) ==> x in Gather(whole, f)
    decreases |whole|
  {
    if o != whole[|whole| - 1] { GatherMember(whole[..|whole| - 1], o, f); }
  }

  /** Ingesting observations again that were ingested before changes nothing in the summary. */
  lemma ReplayChangesNothing(whole: seq<Observation>, again: seq<Observation>)
    requires forall o :: o in again ==> o in whole
    ensures MergeSummary(Summarize(whole), Summarize(again)) == Summarize(whole)
  {
    ReplayAbsorbed(whole, again, DomainsOf);
    ReplayAbsorbed(whole, again, AddressesOf);
    ReplayAbsorbed(whole, again, ServicesOf);
    ReplayAbsorbed(whole, again, URLsOf);
  }

  lemma ReplayAbsorbed<T>(whole: seq<Observation>, again: seq<Observation>, f: Observation -> seq<T>)
    requires forall o :: o in again ==> o in whole
    ensures Merge(Distinct(Gather(whole, f)), Distinct(Gather(again, f))) == Distinct(Gather(whole, f))
  {
    GatherPart(whole, again, f);
    DistinctAbsorbs(Gather(whole, f), Gather(again, f));
  }

  /** Batch numbers as the gateway accepts them: any batch may come again, a new one only in its turn. */
  predicate InTurn(order: seq<nat>, next: nat) {
    if order == [] then next == 0
    else
      var k := order[|order| - 1];
      || (k < next && InTurn(order[..|order| - 1], next))
      || (next > 0 && k == next - 1 && InTurn(order[..|order| - 1], next - 1))
  }

  lemma {:induction false} InTurnBounds(order: seq<nat>, next: nat)
    requires InTurn(order, next)
    ensures forall i :: 0 <= i < |order| ==> order[i] < next
    decreases |order|
  {
    if order != [] {
      var n := |order| - 1;
      if InTurn(order[..n], next) && order[n] < next {
        InTurnBounds(order[..n], next);
      } else {
        InTurnBounds(order[..n], next - 1);
      }
      forall i | 0 <= i < n ensures order[i] < next { assert order[..n][i] == order[i]; }
    }
  }

  function Pick(batches: seq<seq<Observation>>, order: seq<nat>): seq<seq<Observation>>
    requires forall i :: 0 <= i < |order| ==> order[i] < |batches|
  {
    seq(|order|, i requires 0 <= i < |order| => batches[order[i]])
  }

  lemma {:induction false} FlattenMember(batches: seq<seq<Observation>>, k: nat)
    requires k < |batches|
    ensures forall o :: o in batches[k] ==> o in Flatten(batches)
    decreases |batches|
  {
    if k < |batches| - 1 { FlattenMember(batches[..|batches| - 1], k); }
  }

  /** A worker whose batches arrive at least once and first in turn, re-sent any number of times, leaves
      the summary of exactly the observations it made. */
  lemma {:induction false} AtLeastOnceInTurn(batches: seq<seq<Observation>>, order: seq<nat>, next: nat)
    requires InTurn(order, next) && next <= |batches|
    requires forall i :: 0 <= i < |order| ==> order[i] < |batches|
    ensures Folded(Pick(batches, order)) == Summarize(Flatten(batches[..next]))
    decreases |order|
  {
    if order != [] {
      var n := |order| - 1;
      var k := order[n];
      PickNext(batches, order);
      if k < next && InTurn(order[..n], next) {
        AtLeastOnceInTurn(batches, order[..n], next);
        assert batches[..next][k] == batches[k];
        RepeatedBatch(batches[..next], k);
      } else {
        AtLeastOnceInTurn(batches, order[..n], next - 1);
        NextBatch(batches, k);
      }
    }
  }

  /** Folding one more batch. */
  lemma PickNext(batches: seq<seq<Observation>>, order: seq<nat>)
    requires order != [] && forall i :: 0 <= i < |order| ==> order[i] < |batches|
    ensures
      var n := |order| - 1;
      && (forall i :: 0 <= i < n ==> order[..n][i] < |batches|)
      && Folded(Pick(batches, order)) == MergeSummary(Folded(Pick(batches, order[..n])), Summarize(batches[order[n]]))
  {
    var n := |order| - 1;
    assert Pick(batches, order)[..n] == Pick(batches, order[..n]);
  }

  lemma RepeatedBatch(batches: seq<seq<Observation>>, k: nat)
    requires k < |batches|
    ensures MergeSummary(Summarize(Flatten(batches)), Summarize(batches[k])) == Summarize(Flatten(batches))
  {
    FlattenMember(batches, k);
    ReplayChangesNothing(Flatten(batches), batches[k]);
  }

  lemma NextBatch(batches: seq<seq<Observation>>, k: nat)
    requires k < |batches|
    ensures MergeSummary(Summarize(Flatten(batches[..k])), Summarize(batches[k])) == Summarize(Flatten(batches[..k + 1]))
  {
    MergeOfSummaries(Flatten(batches[..k]), batches[k]);
    assert batches[..k + 1][..k] == batches[..k];
  }

  // ---- the code ----

  /** cur with at most one more value, if it is new. */
  function WithNew<T(==)>(cur: seq<T>, more: seq<T>): seq<T> {
    if more == [] || more[0] in cur then cur else cur + more
  }

  function WithObservation(sum: StageSummary, o: Observation): StageSummary {
    StageSummary(WithNew(sum.domains, DomainsOf(o)), WithNew(sum.ips, AddressesOf(o)),
                 WithNew(sum.services, ServicesOf(o)), WithNew(sum.webURLs, URLsOf(o)))
  }

  lemma SummarizeNext(obs: seq<Observation>, i: nat)
    requires i < |obs|
    ensures Summarize(obs[..i + 1]) == WithObservation(Summarize(obs[..i]), obs[i])
  {
    GatherNext(obs, i, DomainsOf);
    GatherNext(obs, i, AddressesOf);
    GatherNext(obs, i, ServicesOf);
    GatherNext(obs, i, URLsOf);
  }

  lemma GatherNext<T>(obs: seq<Observation>, i: nat, f: Observation -> seq<T>)
    requires i < |obs| && |f(obs[i])| <= 1
    ensures Distinct(Gather(obs[..i + 1], f)) == WithNew(Distinct(Gather(obs[..i], f)), f(obs[i]))
  {
    var seen, more := Gather(obs[..i], f), f(obs[i]);
    assert obs[..i + 1][..i] == obs[..i];
    if more == [] {
      assert seen + more == seen;
    } else {
      assert (seen + more)[..|seen|] == seen;
    }
  }

  /** The summary being built, with the values already in it kept in maps beside it. */
  datatype Tally = Tally(sum: StageSummary, domSeen: set<string>, ipSeen: set<string>, svcSeen: set<string>,
                         urlSeen: set<string>)
  {
    predicate Valid() {
      && Seen(domSeen, sum.domains) && Seen(ipSeen, sum.ips) && Seen(urlSeen, sum.webURLs)
      && svcSeen == Keys(sum.services)
    }
  }

  /** The summary half of ingest. */
  method Process(obs: seq<Observation>) returns (sum: StageSummary)
    ensures sum == Summarize(obs)
  {
    var t := Tally(EMPTY, {}, {}, {}, {});
    for i := 0 to |obs|
      invariant t.sum == Summarize(obs[..i]) && t.Valid()
    {
      SummarizeNext(obs, i);
      t := Observe(t, obs[i]);
    }
    assert obs[..|obs|] == obs;
    sum := t.sum;
  }

  /** One turn of ingest's loop. */
  method Observe(t: Tally, o: Observation) returns (r: Tally)
    requires t.Valid()
    ensures r.Valid() && r.sum == WithObservation(t.sum, o)
  {
    r := t;
    if o.ip == "" && NeedsAddress(o.kind) {
      return;
    }
    match o.kind
    case Subdomain =>
      if o.domain != "" && o.domain !in r.domSeen {
        SeenOne(r.domSeen, r.sum.domains, o.domain);
        r := r.(sum := r.sum.(domains := r.sum.domains + [o.domain]), domSeen := r.domSeen + {o.domain});
      }
    case DnsRecord =>
      if (o.rtype == "A" || o.rtype == "AAAA") && o.value !in r.ipSeen {
        SeenOne(r.ipSeen, r.sum.ips, o.value);
        r := r.(sum := r.sum.(ips := r.sum.ips + [o.value]), ipSeen := r.ipSeen + {o.value});
      }
    case Address =>
      if o.ip !in r.ipSeen {
        SeenOne(r.ipSeen, r.sum.ips, o.ip);
        r := r.(sum := r.sum.(ips := r.sum.ips + [o.ip]), ipSeen := r.ipSeen + {o.ip});
      }
    case Service =>
      KeysInjective(r.sum.services, IPPort(o.ip, o.port));
      if EndpointKey(o.ip, o.port) !in r.svcSeen {
        r := r.(sum := r.sum.(services := r.sum.services + [IPPort(o.ip, o.port)]),
                svcSeen := r.svcSeen + {EndpointKey(o.ip, o.port)});
      }
    case Http =>
      var u := UrlFor(o);
      if u != "" && u !in r.urlSeen {
        SeenOne(r.urlSeen, r.sum.webURLs, u);
        r := r.(sum := r.sum.(webURLs := r.sum.webURLs + [u]), urlSeen := r.urlSeen + {u});
      }
    case _ =>
  }

  predicate Seen(seen: set<string>, s: seq<string>) {
    seen == Elements(s)
  }

  lemma SeenOne(seen: set<string>, s: seq<string>, x: string)
    requires Seen(seen, s)
    ensures Seen(seen + {x}, s + [x])
  {
  }

  /** Kinds recorded against a service; without an address they cannot be stored and are skipped. */
  predicate NeedsAddress(kind: ObsType) {
    kind.Service? || kind.Http? || kind.Tls? || kind.Tech? || kind.Screenshot? || kind.Path?
  }

  function Keys(s: seq<IPPort>): set<string> {
    set x | x in s :: EndpointKey(x.ip, x.port)
  }

  lemma KeysInjective(s: seq<IPPort>, x: IPPort)
    ensures EndpointKey(x.ip, x.port) in Keys(s) <==> x in s
  {
    if EndpointKey(x.ip, x.port) in Keys(s) {
      var y :| y in s && EndpointKey(y.ip, y.port) == EndpointKey(x.ip, x.port);
      EndpointKeyInjective(x.ip, x.port, y.ip, y.port);
    }
  }

  method MergeStrings(a: seq<string>, b: seq<string>) returns (r: seq<string>)
    ensures r == Merge(a, b)
  {
    r := a;
    if |b| == 0 { return; }
    var seen := Elements(a);
    for i := 0 to |b|
      invariant r == Merge(a, b[..i]) && seen == Elements(r)
    {
      assert b[..i + 1][..i] == b[..i];
      if b[i] !in seen {
        seen := seen + {b[i]};
        r := r + [b[i]];
      }
    }
    assert b[..|b|] == b;
  }

  method MergeTaskSummary(cur: StageSummary, add: StageSummary) returns (r: StageSummary)
    ensures r == MergeSummary(cur, add)
  {
    var domains := MergeStrings(cur.domains, add.domains);
    var ips := MergeStrings(cur.ips, add.ips);
    var urls := MergeStrings(cur.webURLs, add.webURLs);
    var services := cur.services;
    var seen := Keys(services);
    for i := 0 to |add.services|
      invariant services == Merge(cur.services, add.services[..i]) && seen == Keys(services)
    {
      var s := add.services[i];
      assert add.services[..i + 1][..i] == add.services[..i];
      KeysInjective(services, s);
      if EndpointKey(s.ip, s.port) !in seen {
        seen := seen + {EndpointKey(s.ip, s.port)};
        services := services + [s];
      }
    }
    assert add.services[..|add.services|] == add.services;
    r := StageSummary(domains, ips, services, urls);
  }

  const BATCH: nat := 500

  /** The batches an execution sends: full chunks, then an empty one that closes the task. */
  method Chunk(obs: seq<Observation>) returns (batches: seq<seq<Observation>>)
    ensures Flatten(batches) == obs
    ensures |batches| > 0 && batches[|batches| - 1] == []
    ensures forall k :: 0 <= k < |batches| - 1 ==> 0 < |batches[k]| <= BATCH
    ensures forall k :: 0 <= k < |batches| - 2 ==> |batches[k]| == BATCH
  {
    batches := [];
    var i := 0;
    while i < |obs|
      invariant 0 <= i <= |obs|
      invariant Flatten(batches) == obs[..i]
      invariant forall k :: 0 <= k < |batches| ==> 0 < |batches[k]| <= BATCH
      invariant forall k :: 0 <= k < |batches| - 1 ==> |batches[k]| == BATCH
      invariant i < |obs| && |batches| > 0 ==> |batches[|batches| - 1]| == BATCH
    {
      var end := if i + BATCH > |obs| then |obs| else i + BATCH;
      assert (batches + [obs[i..end]])[..|batches|] == batches;
      assert obs[..i] + obs[i..end] == obs[..end];
      batches := batches + [obs[i..end]];
      i := end;
    }
    assert (batches + [[]])[..|batches|] == batches;
    assert Flatten(batches) + [] == obs;
    batches := batches + [[]];
  }

  // ---- what a summary lists ----

  predicate ReportsAddress(o: Observation, ip: string) {
    || (o.kind == DnsRecord && (o.rtype == "A" || o.rtype == "AAAA") && o.value == ip)
    || (o.kind == Address && o.ip == ip)
  }

  predicate ReportsService(o: Observation, x: IPPort) {
    o.kind == Service && o.ip != "" && x.ip == o.ip && x.port == o.port
  }

  /** A web endpoint is named by address and port, as https on the two usual ports for it. */
  predicate ReportsURL(o: Observation, url: string) {
    && o.kind == Http && o.ip != "" && o.port != 0
    && (if o.port == 443 || o.port == 8443 then url == "https://" + o.ip + ":" + Itoa(o.port)
        else url == "http://" + o.ip + ":" + Itoa(o.port))
  }

  lemma {:induction false} GatheredFrom<T>(obs: seq<Observation>, f: Observation -> seq<T>, x: T)
    ensures x in Gather(obs, f) <==> exists i :: 0 <= i < |obs| && x in f(obs[i])
    decreases |obs|
  {
    if obs != [] {
      var n := |obs| - 1;
      GatheredFrom(obs[..n], f, x);
      if x in Gather(obs[..n], f) {
        var i :| 0 <= i < n && x in f(obs[..n][i]);
        assert x in f(obs[i]);
      }
      if i :| 0 <= i < |obs| && x in f(obs[i]) {
        if i < n { assert x in f(obs[..n][i]); }
      }
    }
  }

  lemma ListedFrom<T>(obs: seq<Observation>, f: Observation -> seq<T>, x: T)
    ensures x in Distinct(Gather(obs, f)) <==> exists i :: 0 <= i < |obs| && x in f(obs[i])
  {
    DistinctElements(Gather(obs, f));
    GatheredFrom(obs, f, x);
  }

  lemma DomainsListed(obs: seq<Observation>, d: string)
    ensures d in Summarize(obs).domains <==> exists i :: 0 <= i < |obs| && obs[i].kind == Subdomain && obs[i].domain == d != ""
  {
    ListedFrom(obs, DomainsOf, d);
    forall i | 0 <= i < |obs| ensures d in DomainsOf(obs[i]) <==> obs[i].kind == Subdomain && obs[i].domain == d != "" {
    }
  }

  /** An address is listed exactly when an A or AAAA record has it as its value, or it was reported itself. */
  lemma AddressesListed(obs: seq<Observation>, ip: string)
    ensures ip in Summarize(obs).ips <==> exists i :: 0 <= i < |obs| && ReportsAddress(obs[i], ip)
  {
    ListedFrom(obs, AddressesOf, ip);
    forall i | 0 <= i < |obs| ensures ip in AddressesOf(obs[i]) <==> ReportsAddress(obs[i], ip) {
    }
  }

  lemma ServicesListed(obs: seq<Observation>, x: IPPort)
    ensures x in Summarize(obs).services <==> exists i :: 0 <= i < |obs| && ReportsService(obs[i], x)
  {
    ListedFrom(obs, ServicesOf, x);
    forall i | 0 <= i < |obs| ensures x in ServicesOf(obs[i]) <==> ReportsService(obs[i], x) {
    }
  }

  lemma URLsListed(obs: seq<Observation>, url: string)
    ensures url in Summarize(obs).webURLs <==> exists i :: 0 <= i < |obs| && ReportsURL(obs[i], url)
  {
    ListedFrom(obs, URLsOf, url);
    forall i | 0 <= i < |obs| ensures url in URLsOf(obs[i]) <==> ReportsURL(obs[i], url) {
      UrlIs(obs[i], url);
    }
  }

  lemma UrlIs(o: Observation, url: string)
    ensures url in URLsOf(o) <==> ReportsURL(o, url)
  {
    assert "https" + "://" == "https://" && "http" + "://" == "http://";
  }

  /** What a summary lists, told from the observations alone, and nothing twice. */
  lemma SummaryListsExactly(obs: seq<Observation>)
    ensures forall d :: d in Summarize(obs).domains <==>
              exists i :: 0 <= i < |obs| && obs[i].kind == Subdomain && obs[i].domain == d != ""
    ensures forall ip :: ip in Summarize(obs).ips <==> exists i :: 0 <= i < |obs| && ReportsAddress(obs[i], ip)
    ensures forall x :: x in Summarize(obs).services <==> exists i :: 0 <= i < |obs| && ReportsService(obs[i], x)
    ensures forall url :: url in Summarize(obs).webURLs <==> exists i :: 0 <= i < |obs| && ReportsURL(obs[i], url)
    ensures Once(Summarize(obs).domains) && Once(Summarize(obs).ips) && Once(Summarize(obs).services) && Once(Summarize(obs).webURLs)
  {
    forall d ensures d in Summarize(obs).domains <==>
                     exists i :: 0 <= i < |obs| && obs[i].kind == Subdomain && obs[i].domain == d != "" {
      DomainsListed(obs, d);
    }
    forall ip ensures ip in Summarize(obs).ips <==> exists i :: 0 <= i < |obs| && ReportsAddress(obs[i], ip) {
      AddressesListed(obs, ip);
    }
    forall x ensures x in Summarize(obs).services <==> exists i :: 0 <= i < |obs| && ReportsService(obs[i], x) {
      ServicesListed(obs, x);
    }
    forall url ensures url in Summarize(obs).webURLs <==> exists i :: 0 <= i < |obs| && ReportsURL(obs[i], url) {
      URLsListed(obs, url);
    }
    DistinctIsFirstSeen(Gather(obs, DomainsOf));
    DistinctIsFirstSeen(Gather(obs, AddressesOf));
    DistinctIsFirstSeen(Gather(obs, ServicesOf));
    DistinctIsFirstSeen(Gather(obs, URLsOf));
  }

  predicate Once<T(==)>(s: seq<T>) { forall i, j :: 0 <= i < j < |s| ==> s[i] != s[j] }

  /** Every service in a summary has an address: one without is dropped at ingest. */
  lemma {:induction false} ServicesHaveAddresses(obs: seq<Observation>, x: IPPort)
    requires x in Summarize(obs).services
    ensures x.ip != ""
    decreases |obs|
  {
    MergeElements([], Gather(obs, ServicesOf));
    if obs != [] && x !in ServicesOf(obs[|obs| - 1]) {
      MergeElements([], Gather(obs[..|obs| - 1], ServicesOf));
      ServicesHaveAddresses(obs[..|obs| - 1], x);
    }
  }
}
