/** The helpers of main.go that the request handler is built from: the
    configuration record, suffix normalisation, suffix-set matching, the
    parsing of a `host:port` upstream entry, and `net.JoinHostPort`. */
module Proxy {
  import opened GoStrings

  /** The `options` record: read-only after start-up. */
  datatype Options = Options(
    upstreamNormal: seq<string>,
    upstreamSpecial: seq<string>,
    upstreamDomains: seq<string>,
    masquedDomain: string,
    upstreamDomain: string)

  // ---------------------------------------------------------------------
  // appendPeriods

  /** The smallest extension of `s` that is both dot-prefixed and
      dot-terminated; a string that already is comes back unchanged. */
  function AppendPeriods(s: string): (r: string)
    ensures HasPrefix(r, ".") && HasSuffix(r, ".")
    ensures r == s <==> HasPrefix(s, ".") && HasSuffix(s, ".")
    ensures |s| <= |r| <= |s| + 2
    ensures OccursAt(r, s, if HasPrefix(s, ".") then 0 else 1)
    ensures HasPrefix(s, ".") && !HasSuffix(s, ".") ==> r == s + "."
    ensures !HasPrefix(s, ".") && HasSuffix(s, ".") && s != [] ==> r == "." + s
  {
    var p := if HasPrefix(s, ".") then s else "." + s;
    var r := if HasSuffix(p, ".") then p else p + ".";
    assert r[..|r|] == r;
    r
  }

  /** Normalising twice is normalising once. */
  lemma AppendPeriodsIdempotent(s: string)
    ensures AppendPeriods(AppendPeriods(s)) == AppendPeriods(s)
  {
  }

  /** The edge cases: the empty string and a lone dot both become ".". */
  lemma AppendPeriodsEdgeCases()
    ensures AppendPeriods("") == "."
    ensures AppendPeriods(".") == "."
  {
  }

  /** A domain with no dot at either end, such as "example.com", gets one
      on each side. */
  lemma AppendPeriodsBareDomain(s: string)
    requires s != [] && s[0] != '.' && s[|s| - 1] != '.'
    ensures AppendPeriods(s) == "." + s + "."
  {
  }

  // ---------------------------------------------------------------------
  // HasSuffixInSlice

  /** Some member of `suffixes` is a plain string suffix of `str`; an empty
      list matches nothing. */
  function HasSuffixInSlice(str: string, suffixes: seq<string>): (b: bool)
    ensures b <==> exists k :: 0 <= k < |suffixes| && HasSuffix(str, suffixes[k])
    ensures suffixes == [] ==> !b
  {
    if suffixes == [] then false
    else if HasSuffix(str, suffixes[0]) then true
    else
      var b := HasSuffixInSlice(str, suffixes[1..]);
      assert forall k :: 1 <= k < |suffixes| ==> suffixes[k] == suffixes[1..][k - 1];
      b
  }

  /** The upstream-domain list is used without normalisation, so the suffix
      match ignores label boundaries: "myservice.consul." matches the
      entry "service.consul." on its own, though it does not end with the
      normalised ".service.consul.". */
  lemma SuffixMatchIgnoresLabels()
    ensures HasSuffixInSlice("myservice.consul.", ["service.consul."])
    ensures !HasSuffix("myservice.consul.", AppendPeriods("service.consul."))
  {
    var n := "myservice.consul.";
    var e := "service.consul.";
    assert n[2..] == e;
    assert !HasPrefix(e, ".") by { assert e[0] == 's' && "."[0] == '.'; }
    var dotted := "." + e;
    assert HasSuffix(dotted, ".") by { assert dotted[|dotted| - 1..] == "."; }
    assert n[1] == 'y';
  }

  // ---------------------------------------------------------------------
  // getRandomUpstream

  datatype Endpoint = Endpoint(host: string, port: string)

  /** Both ways `getRandomUpstream` fails: `rand.Intn` panics on an empty
      pool, and `log.Fatalf` ends the process on an entry that does not
      split into exactly two parts around ':'. */
  datatype UpstreamError = EmptyPool | InvalidUpstream(entry: string)

  datatype Result<T> = Ok(value: T) | Fatal(error: UpstreamError)

  /** The random index is any index in range, chosen by the caller. */
  predicate ValidIndex(upstreams: seq<string>, index: nat) {
    index < |upstreams| || upstreams == []
  }

  /** Picks entry `index` and splits it on ':' (see GetRandomUpstreamSpec). */
  function GetRandomUpstream(upstreams: seq<string>, index: nat): (r: Result<Endpoint>)
    requires ValidIndex(upstreams, index)
  {
    if upstreams == [] then Fatal(EmptyPool)
    else
      var upstream := upstreams[index];
      var parts := Split(upstream, ':');
      if |parts| != 2 then Fatal(InvalidUpstream(upstream))
      else Ok(Endpoint(parts[0], parts[1]))
  }

  /** An empty pool is fatal; otherwise the chosen entry parses exactly when
      it holds one ':', the two halves then hold none and rebuild the entry
      around a ':', and any other entry is reported as invalid. */
  lemma GetRandomUpstreamSpec(upstreams: seq<string>, index: nat)
    requires ValidIndex(upstreams, index)
    ensures var r := GetRandomUpstream(upstreams, index);
      && (upstreams == [] ==> r == Fatal(EmptyPool))
      && (upstreams != [] ==> (r.Ok? <==> Count(upstreams[index], ':') == 1))
      && (upstreams != [] && r.Fatal? ==> r.error == InvalidUpstream(upstreams[index]))
      && (r.Ok? ==> r.value.host + ":" + r.value.port == upstreams[index])
      && (r.Ok? ==> ':' !in r.value.host && ':' !in r.value.port)
  {
    if upstreams != [] {
      var parts := Split(upstreams[index], ':');
      SplitSpec(upstreams[index], ':');
      if |parts| == 2 {
        assert Join(parts, ':') == parts[0] + [':'] + parts[1];
        assert parts[0] in parts && parts[1] in parts;
      }
    }
  }

  /** `net.JoinHostPort`: a host containing ':' is put in brackets. */
  function JoinHostPort(host: string, port: string): string {
    if ':' in host then "[" + host + "]:" + port else host + ":" + port
  }

  /** The address the handler dials is exactly the configured entry. */
  lemma JoinHostPortRebuildsEntry(upstreams: seq<string>, index: nat)
    requires ValidIndex(upstreams, index)
    requires GetRandomUpstream(upstreams, index).Ok?
    ensures var e := GetRandomUpstream(upstreams, index).value;
            JoinHostPort(e.host, e.port) == upstreams[index]
  {
    GetRandomUpstreamSpec(upstreams, index);
  }

  /** An entry in the bracketed form JoinHostPort gives an IPv6 host, such
      as "[::1]:53", holds at least two ':' and is therefore fatal. */
  lemma BracketedHostIsFatal(upstreams: seq<string>, index: nat, host: string, port: string)
    requires index < |upstreams|
    requires ':' in host
    requires upstreams[index] == JoinHostPort(host, port)
    ensures GetRandomUpstream(upstreams, index) == Fatal(InvalidUpstream(upstreams[index]))
  {
    GetRandomUpstreamSpec(upstreams, index);
    BracketedColons(host, port);
  }

  lemma BracketedColons(host: string, port: string)
    requires ':' in host
    ensures Count(JoinHostPort(host, port), ':') >= 2
  {
    var e := JoinHostPort(host, port);
    assert e == ("[" + host) + ("]:" + port);
    CountAppend("[" + host, "]:" + port, ':');
    CountAppend("[", host, ':');
    CountAppend("]:", port, ':');
    assert Count("]:", ':') == 1 by {
      assert "]:"[1..] == ":";
      assert ":"[1..] == "";
    }
  }

  lemma {:induction false} CountAppend(a: string, b: string, c: char)
    ensures Count(a + b, c) == Count(a, c) + Count(b, c)
  {
    if a != [] {
      assert (a + b)[1..] == a[1..] + b;
      CountAppend(a[1..], b, c);
    } else {
      assert a + b == b;
    }
  }
}
