# dnsreverseproxy: the request-handling core in Dafny

dnsreverseproxy is a DNS forwarding proxy. Clients see a "masqueraded" domain
suffix (for example `.example.com.`). Behind it sits an internal "upstream"
suffix (for example `.service.consul.`). For each query the proxy does the following:
1. It decides whether the question name is *special*: it ends with the
   masqueraded domain, or with one of a list of extra upstream domains.
2. If so, it rewrites the first occurrence of the masqueraded domain in the
   name to the upstream domain and asks a server drawn from the special pool.
   Otherwise it asks a server drawn from the normal pool with the name unchanged.
3. It falls back once, to the normal pool and with the original name, when the
   special server gives no response or an empty answer section.
4. It stays silent when the final exchange reports an error.
5. When the question ended with the masqueraded domain, it rewrites the owner
   name of every returned A record back: the first occurrence of the upstream
   domain becomes the masqueraded domain.
6. It replies with the client's id, the answers, and recursion-available set.

The model has three files:

- `go_strings.dfy` (module `GoStrings`) models the pieces of Go's `strings`
  package that main.go uses, and what they are built on:
  - `HasPrefix` and `HasSuffix`;
  - `strings.Replace(s, old, new, 1)` (`ReplaceFirst`), and the
    `strings.Index` search it is built on (`Index`);
  - `strings.Split` on ':' (`Split`). `Count` and `Join` are helpers that
    state its contract.
- `proxy.dfy` (module `Proxy`) models the helpers of main.go:
  - the `options` record;
  - `appendPeriods`, `HasSuffixInSlice` and the split-and-check part of
    `getRandomUpstream`, all as pure functions;
  - `net.JoinHostPort`.
- `handler.dfy` (module `Handler`) models `handleDNSRequest`:
  - `Handle` states the whole protocol of one request as a value (a
    `Transcript`: the exchanges started, in order, and the `Outcome`);
  - `HandleDNSRequest` is the imperative handler. Like the Go code, it
    reassigns `special`, the query, the server pick and the exchange result
    across the fallback step. It writes to a `ResponseWriter` object and
    closes it the way the deferred `Close` does. Its `ensures` ties what it
    did to `Handle`;
  - the lemmas state what the protocol promises.

Collaborators are parameters:
- The network exchange is an oracle `exchange: (nat, Sent) -> ExchangeResult`.
  It is asked with the attempt number (0 for the first exchange, 1 for the
  fallback), because each `Exchange` call sends a new message and a retry of
  the same query to the same server may be answered differently. It gives a
  response or nil, and says whether an error was reported.
- The random pool indices are a caller-chosen `Draws` value: the first draw
  from the special pool, the first draw from the normal pool, and the
  fallback draw.

Behaviour of the code that the model keeps:
- The question-side replacement (main.go:56) is applied to *both* kinds of
  special name. A name matched only through the upstream-domain list is
  still rewritten when it contains the masqueraded domain. See
  `UpstreamDomainMatchIsRewritten`.
- The upstream-domain list is used as given, without `appendPeriods`. So the
  default list entry "service.consul." also matches "myservice.consul.",
  because the suffix test ignores label boundaries (`SuffixMatchIgnoresLabels`).
- The answer-side rewrite (main.go:78) tests only the masqueraded domain. A
  name that is special only through the upstream-domain list gets its answers
  back unrewritten.
- The connection is closed on every path except `log.Fatalf`: that call ends
  the process with `os.Exit`, which does not run deferred calls (`Exit`). A
  `Panicked` outcome runs the deferred `Close`. Three things panic:
  - a request with no question (index out of range at main.go:54);
  - an empty pool (`rand.Intn(0)`);
  - an exchange that returns neither a response nor an error (nil
    dereference at main.go:79 and main.go:87).
- A well-formed entry has exactly one ':'. A bracketed IPv6 entry such as
  "[::1]:53" is therefore fatal (`BracketedHostIsFatal`), even though it is
  exactly what `net.JoinHostPort` produces for an IPv6 host.

## Model

| member | source | states |
|---|---|---|
| `GoStrings.HasPrefix` | main.go:94 | `strings.HasPrefix`: `p` is no longer than `s` and `s` starts with exactly the characters of `p`; the empty string is a prefix of everything |
| `GoStrings.HasSuffix` | main.go:54 | `strings.HasSuffix` (also main.go:36, 78 and 97): `p` is no longer than `s` and `s` ends with exactly the characters of `p`; the empty string is a suffix of everything |
| `GoStrings.Index` | main.go:56 | `strings.Index`: some index is found exactly when the pattern occurs, and it is the lowest occurrence |
| `GoStrings.ReplaceFirst` | main.go:56 | with no occurrence of the pattern the name is unchanged; otherwise exactly the lowest occurrence is replaced and everything before and after it is kept |
| `GoStrings.ReplaceFirstAfterPrefix` | main.go:56 | when the pattern's first character is absent from a prefix, the occurrence right after that prefix is the one replaced |
| `GoStrings.Split` | main.go:27 | `strings.Split` on one separator character; its contract is stated by SplitSpec |
| `GoStrings.SplitSpec` | main.go:27 | splitting on ':' gives one more part than there are colons, no part holds a colon, and joining the parts with ':' gives the entry back |
| `Proxy.AppendPeriods` | main.go:93-101 | the result starts and ends with '.'; it equals the input exactly when the input already has both dots; it holds the input and adds at most two characters; when exactly one dot is missing, only that dot is added |
| `Proxy.AppendPeriodsIdempotent` | main.go:93-101 | normalising twice gives the same as normalising once |
| `Proxy.AppendPeriodsEdgeCases` | main.go:93-101 | "" and "." both become "." |
| `Proxy.AppendPeriodsBareDomain` | main.go:93-101 | a domain with no dot at either end gets one dot on each side |
| `Proxy.HasSuffixInSlice` | main.go:34-41 | true exactly when some list element is a suffix of the name; false for an empty list |
| `Proxy.SuffixMatchIgnoresLabels` | main.go:36 | the list entry "service.consul." on its own makes "myservice.consul." match, although that name does not end with AppendPeriods("service.consul.") = ".service.consul." |
| `Proxy.GetRandomUpstream` | main.go:23-32 | picks the drawn entry and splits it on ':'; its contract is stated by GetRandomUpstreamSpec |
| `Proxy.GetRandomUpstreamSpec` | main.go:23-32 | an empty pool fails; the chosen entry parses exactly when it has one ':'; host + ":" + port is then the entry and neither part holds ':'; any other entry fails naming that entry |
| `Proxy.JoinHostPort` | main.go:63 | `net.JoinHostPort`, brackets around a host holding ':'; its contract is stated by JoinHostPortRebuildsEntry and BracketedHostIsFatal |
| `Proxy.JoinHostPortRebuildsEntry` | main.go:63 | the address dialled for a parsed entry is the configured entry itself |
| `Proxy.BracketedHostIsFatal` | main.go:27-30 | an entry in JoinHostPort's bracketed IPv6 form always fails to parse |
| `Handler.RewriteRecord` | main.go:80-83 | an A record's owner name has its first upstream-domain occurrence replaced by the masqueraded domain; type and data are kept; other records are untouched |
| `Handler.RewriteAnswers` | main.go:79-85 | every answer is rewritten by RewriteRecord, with count and order preserved |
| `Handler.RewriteOwners` | main.go:79-85 | the loop over the answer section computes RewriteAnswers of its input |
| `Handler.ResponseWriter.WriteMsg` | main.go:90 | appends the reply to what the writer sent |
| `Handler.ResponseWriter.Close` | main.go:46-50 | marks the writer closed; writes nothing |
| `Handler.HandleDNSRequest` | main.go:43-91 | the exchanges started and the outcome are those of Handle; the writer gets the reply exactly when there is one; it is closed on every path except a fatal exit |
| `Handler.IsSpecial` | main.go:54-55 | the name ends with the masqueraded domain or with an entry of the upstream-domain list; used by DispatchSpec and HandleFallbackIff |
| `Handler.NeedsFallback` | main.go:64 | the special exchange gave nil or an empty answer section; used by HandleExchanges and HandleFallbackIff |
| `Handler.Dispatch` | main.go:54-63 | the first exchange; its contract is stated by DispatchSpec |
| `Handler.Fallback` | main.go:64-68 | the fallback exchange; its contract is stated by FallbackSpec |
| `Handler.Abort` | main.go:25 | an empty pool panics in `rand.Intn` and the deferred Close runs; a malformed entry (main.go:29) exits the process; stated through HandleDNSRequest's close clause |
| `Handler.Finish` | main.go:71-90 | the outcome of the final exchange; its contract is stated by FinishSpec |
| `Handler.Handle` | main.go:43-91 | the whole protocol of one request; its contract is stated by HandleExchanges, HandleFallbackIff, HandleSpecialQuery, HandleNormalRequest, HandleOutcome and MasqueradedRoundTrip |
| `Handler.DispatchSpec` | main.go:54-63 | a special name goes, first-occurrence rewritten, to the drawn special-pool entry; any other name goes unchanged to the drawn normal-pool entry; a well-formed pool never fails |
| `Handler.FallbackSpec` | main.go:66-68 | the fallback query carries the original name and goes to the drawn normal-pool entry |
| `Handler.HandleExchanges` | main.go:63-69 | at most two exchanges; a second one only after a special exchange with nil or zero answers, with the original name, to the normal pool; none without a question |
| `Handler.HandleFallbackIff` | main.go:63-69 | with well-formed pools nothing is fatal, at least one exchange happens, and a second happens exactly when the request is special and the first result is nil or has no answers |
| `Handler.HandleSpecialQuery` | main.go:54-58 | a special request first sends ReplaceFirst(name, masqueraded, upstream) to the special pool |
| `Handler.HandleNormalRequest` | main.go:59-63 | a normal request makes exactly one exchange, with the unchanged name, to the normal pool, and its outcome comes from that exchange |
| `Handler.HandleOutcome` | main.go:71-74 | with non-empty pools and no fatal exit, the outcome comes from the last exchange alone, and it is silence exactly when that exchange reported an error |
| `Handler.FinishSpec` | main.go:71-90 | silence exactly on an error; a panic on a nil response; a reply exactly when there is no error and a response, and that reply is one with the client's id and question and recursion available, where A-record owners are rewritten exactly when the question ends with the masqueraded domain, other records are kept, and count and order are preserved |
| `Handler.MasqueradedRoundTrip` | main.go:54-90 | "api.example.com." is sent as "api.service.consul." to the special server, and an A record for "api.service.consul." reaches the client as "api.example.com." (any one-label name, any dot-led domains) |
| `Handler.UpstreamDomainMatchIsRewritten` | main.go:54-56 | a name special only through the upstream-domain list is still rewritten before sending, and its answers are not rewritten back |
| `Handler.RewriteNotReversible` | main.go:82 | one concrete instance: with ".e." masqueraded and ".s." upstream, "a.s.e." is sent as "a.s.s." and an A record for that name comes back as "a.e.s.", not as the client's name |
| `Handler.RewriteReversibleAtSuffix` | main.go:82 | when each domain occurs first at the suffix position, the answer for the name sent comes back under the client's name |

## Left out

- `main`, the command-line flags and their defaults (main.go:103-167): process start-up over a CLI library.
- `dns.Server`, `ListenAndServe` and `dns.HandleFunc`: network I/O and one goroutine per request. Requests share nothing mutable, so each is modelled on its own.
- The network round trip of `dns.Client.Exchange` is an oracle supplied by the caller. Timeouts and retransmission belong to it.
- The random choice in `getRandomUpstream` (`rand.New`, `time.Now`) is an index the caller supplies. Uniformity cannot be stated here.
- The wire format of `dns.Msg`. `SetQuestion` also sets class IN, recursion desired and a new message id; the model's `Query` keeps only the name and type. `SetReply` also sets the response flag, opcode and response code, and copies RecursionDesired and CheckingDisabled from the request. The model's `Reply` keeps the id, the first question, the answers and recursion available. The upstream's response code and its authority and additional sections are not copied into the reply in the code either.
- The `*dns.A` type assertion (main.go:81): a record whose header type is A is taken to be an A record.
- Logging and the error returned by `w.Close()`.
- Go strings are bytes; the model's `string` is a sequence of Unicode scalar values. `HasPrefix`, `HasSuffix`, `Index`, `Replace` and `Split` on ':' give the same answers on valid UTF-8, and DNS names in presentation form are ASCII.
- What happens after a panic or a fatal exit. The model stops at `Panicked` or `Exit`; the process ends there.
