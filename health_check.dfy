/** The health monitor: the configured upstream list and the set of upstreams whose last
    probe succeeded (HealthCheckService.java). A probe is a GET on the upstream's health
    URL; its outcome is a parameter here, true for a successful response. */
module HealthCheck {
  import opened JavaInt
  import opened StringOrder

  type Url = string

  const HealthPath: string := "/actuator/health"

  /** The URL a probe of baseUrl requests. */
  function HealthUrl(baseUrl: Url): (url: string)
  {
    baseUrl + HealthPath
  }

  /** The health URL is the base URL followed by exactly the health path. */
  lemma HealthUrlShape(baseUrl: Url)
    ensures |HealthUrl(baseUrl)| == |baseUrl| + |HealthPath|
    ensures HealthUrl(baseUrl)[..|baseUrl|] == baseUrl && HealthUrl(baseUrl)[|baseUrl|..] == HealthPath
  {
  }

  /** Distinct upstreams are probed at distinct URLs. */
  lemma HealthUrlInjective(a: Url, b: Url)
    requires HealthUrl(a) == HealthUrl(b)
    ensures a == b
  {
    HealthUrlShape(a);
    HealthUrlShape(b);
  }

  /** The healthy set a sweep leaves once every probe has completed: exactly the configured
      upstreams whose probe succeeded. */
  ghost function Swept(all: seq<Url>, probe: string -> bool): set<Url>
  {
    set u | u in all && probe(HealthUrl(u))
  }

  class HealthCheckService {
    const allInstances: seq<Url>
    var healthyInstances: set<Url>

    /** Only configured upstreams are ever added, and the configured list is a Java list,
        so its size fits an int. */
    ghost predicate Valid()
      reads this
    {
      healthyInstances <= Elements(allInstances) && |allInstances| <= MaxInt
    }

    /** Before any sweep no upstream is healthy. */
    constructor (instances: seq<Url>)
      requires |instances| <= MaxInt
      ensures Valid()
      ensures allInstances == instances && healthyInstances == {}
    {
      allInstances := instances;
      healthyInstances := {};
    }

    /** The two callbacks of one probe: success adds its upstream, an error or timeout
        removes it. No other upstream's membership changes. */
    method RecordProbe(baseUrl: Url, healthy: bool)
      requires Valid() && baseUrl in allInstances
      modifies this
      ensures Valid()
      ensures baseUrl in healthyInstances <==> healthy
      ensures forall u :: u != baseUrl ==> (u in healthyInstances <==> u in old(healthyInstances))
    {
      if healthy {
        healthyInstances := healthyInstances + {baseUrl};
      } else {
        healthyInstances := healthyInstances - {baseUrl};
      }
    }

    /** One sweep, each probe completing before the next starts: afterwards the healthy
        set is exactly the set of configured upstreams whose probe succeeded, whatever it
        was before. */
    method Init(probe: string -> bool)
      requires Valid()
      modifies this
      ensures Valid()
      ensures healthyInstances == Swept(allInstances, probe)
    {
      var i := 0;
      while i < |allInstances|
        invariant 0 <= i <= |allInstances|
        invariant Valid()
        invariant forall u :: u in allInstances[..i] ==> (u in healthyInstances <==> probe(HealthUrl(u)))
        invariant forall u :: u !in allInstances[..i] ==> (u in healthyInstances <==> u in old(healthyInstances))
      {
        var baseUrl := allInstances[i];
        var healthUrl := HealthUrl(baseUrl);
        assert allInstances[..i + 1] == allInstances[..i] + [baseUrl];
        RecordProbe(baseUrl, probe(healthUrl));
        i := i + 1;
      }
      assert allInstances[..i] == allInstances;
    }

    /** The snapshot handed to the dispatcher: a fresh sequence holding the healthy
        upstreams in ascending order without duplicates, no longer than the configured
        list. Being a value, it is unaffected by later probes. */
    function GetHealthyInstances(): (r: seq<Url>)
      requires Valid()
      reads this
      ensures StrictlyAscending(r)
      ensures Elements(r) == healthyInstances
      ensures |r| == |healthyInstances| <= |allInstances| <= MaxInt
    {
      SubsetBound(healthyInstances, Elements(allInstances));
      ElementsBound(allInstances);
      SortedElements(healthyInstances)
    }
  }

  /** The periodic check of HealthCheckServiceTest: two upstreams, the first healthy and
      the second not, then the other way round. Each sweep's snapshot holds exactly the
      upstream whose probe succeeded. */
  method PeriodicHealthCheck(first: Url, second: Url) returns (before: seq<Url>, after: seq<Url>)
    requires first != second
    ensures before == [first]
    ensures after == [second]
  {
    var service := new HealthCheckService([first, second]);
    service.Init(url => url == HealthUrl(first));
    assert service.healthyInstances == {first} by {
      if HealthUrl(second) == HealthUrl(first) {
        HealthUrlInjective(second, first);
      }
    }
    before := service.GetHealthyInstances();
    SingletonListing(before, first);
    service.Init(url => url == HealthUrl(second));
    assert service.healthyInstances == {second} by {
      if HealthUrl(first) == HealthUrl(second) {
        HealthUrlInjective(first, second);
      }
    }
    after := service.GetHealthyInstances();
    SingletonListing(after, second);
  }

  lemma SingletonListing(s: seq<Url>, x: Url)
    requires |s| == 1 && Elements(s) == {x}
    ensures s == [x]
  {
    assert s[0] in Elements(s);
  }
}
