/** `handleDNSRequest` of main.go: classify the question name, rewrite it,
    exchange with a special or a normal upstream, fall back once to the
    normal pool, rewrite A-record owner names back, and reply. The network
    exchange is an oracle the caller supplies, and so are the random pool
    indices. */
module Handler {
  import opened GoStrings
  import opened Proxy

  /** The numeric code of record type A. */
  const TypeA: nat := 1

  datatype Question = Question(name: string, qtype: nat, qclass: nat)

  /** A client request: its transaction id and its question section. */
  datatype Request = Request(id: nat, questions: seq<Question>)

  /** A resource record: owner name, record type, and the rest left opaque. */
  datatype RR = RR(owner: string, rrtype: nat, rdata: string)

  /** An upstream response; only its answer section is used. */
  datatype Msg = Msg(answers: seq<RR>)

  /** The query `SetQuestion` builds: a name and a type (class IN). */
  datatype Query = Query(name: string, qtype: nat)

  /** One exchange the handler starts: the query and the dialled address. */
  datatype Sent = Sent(query: Query, server: string)

  /** What `Client.Exchange` hands back: a response or nil, and whether an
      error was reported. */
  datatype ExchangeResult = ExchangeResult(msg: Option<Msg>, failed: bool)

  /** The reply sent to the client. */
  datatype Reply = Reply(id: nat, question: Question, answers: seq<RR>, recursionAvailable: bool)

  /** How one call of the handler ends.
      Replied: a reply was written. Silent: the final exchange failed and
      nothing was written. Panicked: the request had no question, or the
      exchange gave neither a response nor an error (nil dereference).
      An empty upstream pool panics as well (in `rand.Intn`).
      Exit: `log.Fatalf` ended the process over a malformed entry. */
  datatype Outcome = Replied(reply: Reply) | Silent | Panicked | Exit(entry: string)

  /** The exchanges one call starts, in order, and how it ends. */
  datatype Transcript = Transcript(sent: seq<Sent>, outcome: Outcome)

  /** The three random pool indices one call may draw: the first draw from
      the special pool or from the normal pool, and the fallback draw. */
  datatype Draws = Draws(special: nat, normal: nat, fallback: nat)

  predicate ValidDraws(opts: Options, d: Draws) {
    ValidIndex(opts.upstreamSpecial, d.special) &&
    ValidIndex(opts.upstreamNormal, d.normal) &&
    ValidIndex(opts.upstreamNormal, d.fallback)
  }

  /** Every entry of a pool is a well-formed `host:port`, and the pool is not empty. */
  predicate WellFormedPool(pool: seq<string>) {
    pool != [] && forall k :: 0 <= k < |pool| ==> Count(pool[k], ':') == 1
  }

  // ---------------------------------------------------------------------
  // The decision logic, one function per step

  /** The request goes to the special pool. */
  predicate IsSpecial(name: string, opts: Options) {
    HasSuffix(name, opts.masquedDomain) || HasSuffixInSlice(name, opts.upstreamDomains)
  }

  /** The special exchange needs the fallback: nil response or no answers. */
  predicate NeedsFallback(res: ExchangeResult) {
    res.msg.None? || |res.msg.value.answers| == 0
  }

  /** The owner name of an A record is rewritten from the upstream domain
      back to the masqueraded one; any other record is left as it is. */
  function RewriteRecord(rr: RR, opts: Options): (r: RR)
    ensures r.rrtype == rr.rrtype && r.rdata == rr.rdata
    ensures rr.rrtype != TypeA ==> r == rr
    ensures rr.rrtype == TypeA ==> r.owner == ReplaceFirst(rr.owner, opts.upstreamDomain, opts.masquedDomain)
  {
    if rr.rrtype == TypeA then rr.(owner := ReplaceFirst(rr.owner, opts.upstreamDomain, opts.masquedDomain))
    else rr
  }

  /** The answer section with every record rewritten: same count, same order. */
  function RewriteAnswers(answers: seq<RR>, opts: Options): (r: seq<RR>)
    ensures |r| == |answers|
    ensures forall k :: 0 <= k < |r| ==> r[k] == RewriteRecord(answers[k], opts)
  {
    if answers == [] then []
    else [RewriteRecord(answers[0], opts)] + RewriteAnswers(answers[1..], opts)
  }

  /** The reply assembled from the final exchange, owner names rewritten
      only when the question name ends with the masqueraded domain. */
  function Finish(r: Request, q: Question, opts: Options, res: ExchangeResult): Outcome {
    if res.failed then Silent
    else if res.msg.None? then Panicked
    else
      var answers := res.msg.value.answers;
      var out := if HasSuffix(q.name, opts.masquedDomain) then RewriteAnswers(answers, opts) else answers;
      Replied(Reply(r.id, q, out, true))
  }

  /** The first exchange: the name after the query-side rewrite, sent to an
      entry of the pool the classification chose. */
  function Dispatch(q: Question, opts: Options, d: Draws): (r: Result<Sent>)
    requires ValidDraws(opts, d)
  {
    var special := IsSpecial(q.name, opts);
    var name := if special then ReplaceFirst(q.name, opts.masquedDomain, opts.upstreamDomain) else q.name;
    var pick := if special then GetRandomUpstream(opts.upstreamSpecial, d.special)
                else GetRandomUpstream(opts.upstreamNormal, d.normal);
    match pick
    case Fatal(e) => Fatal(e)
    case Ok(ep) => Ok(Sent(Query(name, q.qtype), JoinHostPort(ep.host, ep.port)))
  }

  /** The fallback exchange: the original name, sent to a normal-pool entry. */
  function Fallback(q: Question, opts: Options, d: Draws): (r: Result<Sent>)
    requires ValidDraws(opts, d)
  {
    match GetRandomUpstream(opts.upstreamNormal, d.fallback)
    case Fatal(e) => Fatal(e)
    case Ok(ep) => Ok(Sent(Query(q.name, q.qtype), JoinHostPort(ep.host, ep.port)))
  }

  /** How a failed `getRandomUpstream` ends the request. */
  function Abort(e: UpstreamError): Outcome {
    match e
    case EmptyPool => Panicked
    case InvalidUpstream(entry) => Exit(entry)
  }

  /** The whole protocol of one request, as a value. The oracle is asked
      with the attempt number (0 for the first exchange, 1 for the
      fallback): each `Exchange` call sends a new message, so a retry of
      the same query to the same server may be answered differently. */
  function Handle(r: Request, opts: Options, exchange: (nat, Sent) -> ExchangeResult, d: Draws): Transcript
    requires ValidDraws(opts, d)
  {
    if r.questions == [] then Transcript([], Panicked)
    else
      var q := r.questions[0];
      match Dispatch(q, opts, d)
      case Fatal(e) => Transcript([], Abort(e))
      case Ok(first) =>
        var res := exchange(0, first);
        if IsSpecial(q.name, opts) && NeedsFallback(res) then
          match Fallback(q, opts, d)
          case Fatal(e) => Transcript([first], Abort(e))
          case Ok(second) => Transcript([first, second], Finish(r, q, opts, exchange(1, second)))
        else Transcript([first], Finish(r, q, opts, res))
  }

  /** The loop over the answer section: each A record gets its owner name
      rewritten from the upstream domain to the masqueraded domain. */
  method RewriteOwners(answers: seq<RR>, opts: Options) returns (out: seq<RR>)
    ensures out == RewriteAnswers(answers, opts)
  {
    out := answers;
    var i := 0;
    while i < |out|
      invariant 0 <= i <= |out| == |answers|
      invariant forall k :: 0 <= k < i ==> out[k] == RewriteRecord(answers[k], opts)
      invariant forall k :: i <= k < |out| ==> out[k] == answers[k]
    {
      var a := out[i];
      if a.rrtype == TypeA {
        out := out[i := a.(owner := ReplaceFirst(a.owner, opts.upstreamDomain, opts.masquedDomain))];
      }
      i := i + 1;
    }
  }

  // ---------------------------------------------------------------------
  // The connection handle and the handler itself

  /** The `dns.ResponseWriter` of one request: what was written, and whether
      it was closed. */
  class ResponseWriter {
    var written: seq<Reply>
    var closed: bool

    constructor ()
      ensures written == [] && !closed
    {
      written := [];
      closed := false;
    }

    method WriteMsg(m: Reply)
      modifies this
      ensures written == old(written) + [m] && closed == old(closed)
    {
      written := written + [m];
    }

    method Close()
      modifies this
      ensures closed && written == old(written)
    {
      closed := true;
    }
  }

  /** Handles one request. The writer gets at most one reply, and it is
      closed on every path except the one where the process exits (a
      deferred call does not run on `os.Exit`). */
  method HandleDNSRequest(w: ResponseWriter, r: Request, opts: Options,
                          exchange: (nat, Sent) -> ExchangeResult, d: Draws)
    returns (sent: seq<Sent>, outcome: Outcome)
    requires ValidDraws(opts, d)
    modifies w
    ensures Transcript(sent, outcome) == Handle(r, opts, exchange, d)
    ensures w.written == old(w.written) + (if outcome.Replied? then [outcome.reply] else [])
    ensures w.closed == (old(w.closed) || !outcome.Exit?)
  {
    sent := [];
    if |r.questions| == 0 {
      // r.Question[0] is out of range: the deferred Close runs while panicking
      w.Close();
      return sent, Panicked;
    }
    var q := r.questions[0];
    var special := false;
    var m: Query;
    var pick: Result<Endpoint>;
    if HasSuffix(q.name, opts.masquedDomain) || HasSuffixInSlice(q.name, opts.upstreamDomains) {
      m := Query(ReplaceFirst(q.name, opts.masquedDomain, opts.upstreamDomain), q.qtype);
      pick := GetRandomUpstream(opts.upstreamSpecial, d.special);
      special := true;
    } else {
      m := Query(q.name, q.qtype);
      pick := GetRandomUpstream(opts.upstreamNormal, d.normal);
    }
    if pick.Fatal? {
      assert Dispatch(q, opts, d) == Fatal(pick.error);
      if pick.error.EmptyPool? {
        w.Close();
        return sent, Panicked;
      }
      return sent, Exit(pick.error.entry);
    }
    var out := Sent(m, JoinHostPort(pick.value.host, pick.value.port));
    assert Dispatch(q, opts, d) == Ok(out);
    sent := sent + [out];
    var res := exchange(0, out);
    if special && (res.msg.None? || |res.msg.value.answers| == 0) {
      m := Query(q.name, q.qtype);
      pick := GetRandomUpstream(opts.upstreamNormal, d.fallback);
      if pick.Fatal? {
        assert Fallback(q, opts, d) == Fatal(pick.error);
        if pick.error.EmptyPool? {
          w.Close();
          return sent, Panicked;
        }
        return sent, Exit(pick.error.entry);
      }
      out := Sent(m, JoinHostPort(pick.value.host, pick.value.port));
      assert Fallback(q, opts, d) == Ok(out);
      sent := sent + [out];
      res := exchange(1, out);
    }
    ghost var final := Finish(r, q, opts, res);
    assert Handle(r, opts, exchange, d) == Transcript(sent, final);

    if res.failed {
      w.Close();
      return sent, Silent;
    }
    if res.msg.None? {
      // in.Answer on a nil response: the deferred Close runs while panicking
      w.Close();
      return sent, Panicked;
    }

    var answers := res.msg.value.answers;
    if HasSuffix(q.name, opts.masquedDomain) {
      answers := RewriteOwners(answers, opts);
    }
    var reply := Reply(r.id, q, answers, true);
    w.WriteMsg(reply);
    w.Close();
    outcome := Replied(reply);
  }

  // ---------------------------------------------------------------------
  // What the protocol promises

  /** The first exchange: a special name goes, rewritten, to the entry drawn
      from the special pool; any other name goes unchanged to the entry
      drawn from the normal pool. A well-formed pool always yields it. */
  lemma DispatchSpec(q: Question, opts: Options, d: Draws)
    requires ValidDraws(opts, d)
    ensures var pool := if IsSpecial(q.name, opts) then opts.upstreamSpecial else opts.upstreamNormal;
            var index := if IsSpecial(q.name, opts) then d.special else d.normal;
            var name := if IsSpecial(q.name, opts) then ReplaceFirst(q.name, opts.masquedDomain, opts.upstreamDomain) else q.name;
            && (WellFormedPool(pool) ==> Dispatch(q, opts, d).Ok?)
            && (Dispatch(q, opts, d).Ok? ==> Dispatch(q, opts, d).value == Sent(Query(name, q.qtype), pool[index]))
            && (Dispatch(q, opts, d).Fatal? ==> Dispatch(q, opts, d).error == GetRandomUpstream(pool, index).error)
  {
    var special := IsSpecial(q.name, opts);
    var pool := if special then opts.upstreamSpecial else opts.upstreamNormal;
    var index := if special then d.special else d.normal;
    GetRandomUpstreamSpec(pool, index);
    if GetRandomUpstream(pool, index).Ok? {
      JoinHostPortRebuildsEntry(pool, index);
    }
  }

  /** The fallback exchange: the original name, to the entry drawn for it
      from the normal pool. */
  lemma FallbackSpec(q: Question, opts: Options, d: Draws)
    requires ValidDraws(opts, d)
    ensures WellFormedPool(opts.upstreamNormal) ==> Fallback(q, opts, d).Ok?
    ensures Fallback(q, opts, d).Ok? ==>
              Fallback(q, opts, d).value == Sent(Query(q.name, q.qtype), opts.upstreamNormal[d.fallback])
  {
    GetRandomUpstreamSpec(opts.upstreamNormal, d.fallback);
    if GetRandomUpstream(opts.upstreamNormal, d.fallback).Ok? {
      JoinHostPortRebuildsEntry(opts.upstreamNormal, d.fallback);
    }
  }

  /** At most two exchanges; a second one only after a special exchange
      that gave nil or no answers, and then with the original name to the
      normal pool; a request with no question starts none. */
  lemma HandleExchanges(r: Request, opts: Options, exchange: (nat, Sent) -> ExchangeResult, d: Draws)
    requires ValidDraws(opts, d)
    ensures var t := Handle(r, opts, exchange, d);
            && |t.sent| <= 2
            && (r.questions == [] ==> t.sent == [])
            && (|t.sent| == 2 ==>
                  var q := r.questions[0];
                  && IsSpecial(q.name, opts)
                  && NeedsFallback(exchange(0, t.sent[0]))
                  && t.sent[1] == Sent(Query(q.name, q.qtype), opts.upstreamNormal[d.fallback]))
  {
    if r.questions != [] {
      FallbackSpec(r.questions[0], opts, d);
    }
  }

  /** With well-formed pools nothing is fatal, there is at least one
      exchange, and the fallback happens exactly when the request is special
      and the first exchange gave nil or no answers. */
  lemma HandleFallbackIff(r: Request, opts: Options, exchange: (nat, Sent) -> ExchangeResult, d: Draws)
    requires ValidDraws(opts, d)
    requires r.questions != []
    requires WellFormedPool(opts.upstreamSpecial) && WellFormedPool(opts.upstreamNormal)
    ensures var t := Handle(r, opts, exchange, d);
            && !t.outcome.Exit?
            && 1 <= |t.sent| <= 2
            && (|t.sent| == 2 <==> IsSpecial(r.questions[0].name, opts) && NeedsFallback(exchange(0, t.sent[0])))
  {
    DispatchSpec(r.questions[0], opts, d);
    FallbackSpec(r.questions[0], opts, d);
  }

  /** A special request first asks the special pool for the name with its
      first occurrence of the masqueraded domain replaced. */
  lemma HandleSpecialQuery(r: Request, opts: Options, exchange: (nat, Sent) -> ExchangeResult, d: Draws)
    requires ValidDraws(opts, d)
    requires r.questions != [] && IsSpecial(r.questions[0].name, opts)
    requires WellFormedPool(opts.upstreamSpecial)
    ensures var t := Handle(r, opts, exchange, d);
            var q := r.questions[0];
            |t.sent| >= 1 &&
            t.sent[0] == Sent(Query(ReplaceFirst(q.name, opts.masquedDomain, opts.upstreamDomain), q.qtype),
                              opts.upstreamSpecial[d.special])
  {
    DispatchSpec(r.questions[0], opts, d);
  }

  /** A normal request makes exactly one exchange, with the unchanged name,
      to the normal pool, and its outcome comes from that exchange alone. */
  lemma HandleNormalRequest(r: Request, opts: Options, exchange: (nat, Sent) -> ExchangeResult, d: Draws)
    requires ValidDraws(opts, d)
    requires r.questions != [] && !IsSpecial(r.questions[0].name, opts)
    requires WellFormedPool(opts.upstreamNormal)
    ensures var t := Handle(r, opts, exchange, d);
            var q := r.questions[0];
            && t.sent == [Sent(Query(q.name, q.qtype), opts.upstreamNormal[d.normal])]
            && t.outcome == Finish(r, q, opts, exchange(0, t.sent[0]))
  {
    DispatchSpec(r.questions[0], opts, d);
  }

  /** With both pools non-empty and unless the process exits, the outcome
      is decided by the last exchange alone: silence exactly when it
      reported an error. */
  lemma HandleOutcome(r: Request, opts: Options, exchange: (nat, Sent) -> ExchangeResult, d: Draws)
    requires ValidDraws(opts, d)
    requires r.questions != []
    requires opts.upstreamSpecial != [] && opts.upstreamNormal != []
    ensures var t := Handle(r, opts, exchange, d);
            !t.outcome.Exit? ==>
              && t.sent != []
              && t.outcome == Finish(r, r.questions[0], opts, exchange(|t.sent| - 1, t.sent[|t.sent| - 1]))
              && (t.outcome.Silent? <==> exchange(|t.sent| - 1, t.sent[|t.sent| - 1]).failed)
  {
  }

  /** The reply: the client's id and first question, recursion available,
      and the final answers in the same number and order; an A record has
      its owner name rewritten back exactly when the question name ends
      with the masqueraded domain, and every other record is passed on as
      it came. A failed exchange gives silence, a nil response a panic. */
  lemma FinishSpec(r: Request, q: Question, opts: Options, res: ExchangeResult)
    ensures Finish(r, q, opts, res).Silent? <==> res.failed
    ensures Finish(r, q, opts, res).Panicked? <==> !res.failed && res.msg.None?
    ensures Finish(r, q, opts, res).Replied? <==> !res.failed && res.msg.Some?
    ensures Finish(r, q, opts, res).Replied? ==>
              var m := Finish(r, q, opts, res).reply;
              var answers := res.msg.value.answers;
              && m.id == r.id && m.question == q && m.recursionAvailable
              && |m.answers| == |answers|
              && forall k :: 0 <= k < |answers| ==>
                   && m.answers[k].rrtype == answers[k].rrtype
                   && m.answers[k].rdata == answers[k].rdata
                   && m.answers[k].owner ==
                        if HasSuffix(q.name, opts.masquedDomain) && answers[k].rrtype == TypeA
                        then ReplaceFirst(answers[k].owner, opts.upstreamDomain, opts.masquedDomain)
                        else answers[k].owner
  {
  }

  // ---------------------------------------------------------------------
  // Scenarios

  /** A name made of one label and the masqueraded domain, such as
      "api.example.com.", is sent as that label and the upstream domain
      ("api.service.consul.") to the special server; when that server
      answers with an A record for the name it was asked, the client gets
      the record under its own name ("api.example.com."). */
  lemma MasqueradedRoundTrip(r: Request, opts: Options, exchange: (nat, Sent) -> ExchangeResult, d: Draws,
                             prefix: string, data: string)
    requires ValidDraws(opts, d) && WellFormedPool(opts.upstreamSpecial)
    requires opts.masquedDomain != [] && opts.masquedDomain[0] == '.'
    requires opts.upstreamDomain != [] && opts.upstreamDomain[0] == '.'
    requires '.' !in prefix
    requires r.questions != [] && r.questions[0].name == prefix + opts.masquedDomain
    requires exchange(0, Sent(Query(prefix + opts.upstreamDomain, r.questions[0].qtype), opts.upstreamSpecial[d.special]))
             == ExchangeResult(Some(Msg([RR(prefix + opts.upstreamDomain, TypeA, data)])), false)
    ensures var q := r.questions[0];
            Handle(r, opts, exchange, d) ==
              Transcript([Sent(Query(prefix + opts.upstreamDomain, q.qtype), opts.upstreamSpecial[d.special])],
                         Replied(Reply(r.id, q, [RR(prefix + opts.masquedDomain, TypeA, data)], true)))
  {
    var q := r.questions[0];
    assert q.name == prefix + opts.masquedDomain + "";
    assert HasSuffix(q.name, opts.masquedDomain) by {
      assert q.name[|q.name| - |opts.masquedDomain|..] == opts.masquedDomain;
    }
    ReplaceFirstAfterPrefix(prefix, opts.masquedDomain, opts.upstreamDomain, "");
    assert prefix + opts.upstreamDomain == prefix + opts.upstreamDomain + "";
    ReplaceFirstAfterPrefix(prefix, opts.upstreamDomain, opts.masquedDomain, "");
    DispatchSpec(q, opts, d);
    var answers := [RR(prefix + opts.upstreamDomain, TypeA, data)];
    assert RewriteAnswers(answers, opts) == [RR(prefix + opts.masquedDomain, TypeA, data)];
  }

  /** Replacement happens for both kinds of special name: a name matched
      only through the upstream-domain list, such as
      "a.example.com.b.service.consul.", still has its first occurrence of
      the masqueraded domain rewritten before it is sent, and the owner
      names of its answers are not rewritten back. */
  lemma UpstreamDomainMatchIsRewritten(r: Request, opts: Options, res: ExchangeResult, d: Draws,
                                       prefix: string, rest: string)
    requires ValidDraws(opts, d) && WellFormedPool(opts.upstreamSpecial)
    requires opts.masquedDomain != [] && opts.masquedDomain[0] !in prefix
    requires r.questions != [] && r.questions[0].name == prefix + opts.masquedDomain + rest
    requires !HasSuffix(r.questions[0].name, opts.masquedDomain)
    requires HasSuffixInSlice(r.questions[0].name, opts.upstreamDomains)
    ensures var q := r.questions[0];
            && Dispatch(q, opts, d) == Ok(Sent(Query(prefix + opts.upstreamDomain + rest, q.qtype),
                                              opts.upstreamSpecial[d.special]))
            && (!res.failed && res.msg.Some? ==> Finish(r, q, opts, res).reply.answers == res.msg.value.answers)
  {
    ReplaceFirstAfterPrefix(prefix, opts.masquedDomain, opts.upstreamDomain, rest);
    DispatchSpec(r.questions[0], opts, d);
  }

  /** The two rewrites are not inverse: when the upstream domain appears as
      a prefix run before the masqueraded suffix, the answer-side rewrite
      hits that earlier occurrence. With ".e." masqueraded and ".s."
      upstream, "a.s.e." is sent as "a.s.s." and an answer for that name
      comes back as "a.e.s.". */
  lemma RewriteNotReversible()
    ensures ReplaceFirst("a.s.e.", ".e.", ".s.") == "a.s.s."
    ensures ReplaceFirst("a.s.s.", ".s.", ".e.") == "a.e.s."
    ensures ReplaceFirst(ReplaceFirst("a.s.e.", ".e.", ".s."), ".s.", ".e.") != "a.s.e."
  {
    var n := "a.s.e.";
    assert OccursAt(n, ".e.", 3) by { assert n[3..6] == ".e."; }
    assert !OccursAt(n, ".e.", 0) by { assert n[0] != '.'; }
    assert !OccursAt(n, ".e.", 1) by { assert n[2] != 'e'; }
    assert !OccursAt(n, ".e.", 2) by { assert n[2] != '.'; }
    assert FirstOccurrence(n, ".e.", 3);
    assert n[..3] + ".s." + n[6..] == "a.s.s.";
    var u := "a.s.s.";
    assert OccursAt(u, ".s.", 1) by { assert u[1..4] == ".s."; }
    assert !OccursAt(u, ".s.", 0) by { assert u[0] != '.'; }
    assert FirstOccurrence(u, ".s.", 1);
    assert u[..1] + ".e." + u[4..] == "a.e.s.";
  }

  /** The rewrites are inverse when each domain occurs first at the suffix
      position: sending "p + masqueraded" and rewriting an answer for the
      name that was sent gives the client's name back. */
  lemma RewriteReversibleAtSuffix(p: string, opts: Options)
    requires FirstOccurrence(p + opts.masquedDomain, opts.masquedDomain, |p|)
    requires FirstOccurrence(p + opts.upstreamDomain, opts.upstreamDomain, |p|)
    ensures var sent := ReplaceFirst(p + opts.masquedDomain, opts.masquedDomain, opts.upstreamDomain);
            sent == p + opts.upstreamDomain &&
            RewriteRecord(RR(sent, TypeA, []), opts).owner == p + opts.masquedDomain
  {
  }
}
