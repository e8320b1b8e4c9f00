# dnstest: the zone-backed test responder

`dnstest` is an in-process DNS responder for unit tests, the DNS analogue of an
HTTP test server. `NewServerBind` takes zone text, loads its records and starts
a server whose handler answers each query from those records. This project
models that responder and proves what it answers.

- **Zone loader** (`Dnstest.LoadZone`). It walks the records the zone parser
  produced, in order. It lowercases each owner name and appends the record to
  the record list. If the parser reports an error, construction aborts (the
  source panics; the model returns `Failure` with the parser's error).
- **Query handler** (`Dnstest.Handle`). A request without exactly one question
  gets RCODE 1 (FORMERR, section 4.1.1 of RFC 1035) and no answers. Otherwise
  the question name is lowercased and every record is scanned in order. A
  record whose owner name differs is skipped. For the remaining records:
  - QTYPE ANY (255, section 3.2.3 of RFC 1035) takes every record;
  - A, AAAA, MX, TXT, SPF, NS, SRV and SOA take records of exactly that type;
  - CNAME takes only CNAME records;
  - every other query type takes nothing, with RCODE 0.

The handler is proved equal to the pure specification `Respond`, built on an
order-preserving filter (`Seqs.Keep`). The lemmas state the answer section's
properties against independent reference filters. These properties are:
name match, the type policy for each query-type class, order and multiplicity,
membership, case-insensitive matching after loading, and the format-error
path. The repository's own test scenario (an A and an MX record for
`example.com.`) is replayed in `DnstestExamples`.

Files: `wrappers.dfy` (Option, Result), `dns_types.dfy` (records, questions,
replies and the type and RCODE constants), `ascii.dfy` (ASCII lowercasing),
`seqs.dfy` (order-preserving filter and subsequences), `server.dfy` (loader,
handler and their properties), `server_test.dfy` (the test scenario).

## Model

| member | source | states |
|---|---|---|
| Ascii.Lower | server.go:35 | The lowercased name has the same length, each character is lowercased in place, and no upper-case ASCII letter remains |
| Ascii.LowerFixedIffLower | server.go:35 | Lowercasing leaves a name unchanged exactly when it has no upper-case ASCII letter |
| Ascii.LowerIdempotent | server.go:35 | Lowercasing a lowercased name changes nothing |
| Dnstest.LowerOwner | server.go:35 | Normalising a record lowercases its owner name and keeps its type, class, TTL and data |
| Dnstest.Loaded | server.go:33-37 | The record list has the parser's length and order; entry i is parsed record i with its owner name lowercased |
| Dnstest.LoadedIsNormalised | server.go:35 | After loading every owner name is lowercase, and lowercasing the loaded list again changes nothing |
| Dnstest.LoadZone | server.go:32-40 | With no parser error the loop yields exactly `Loaded` of the parsed records; with a parser error no record list is produced and the error is passed on |
| Dnstest.Handle | server.go:42-88 | The handler's scan returns exactly the reply `Respond` specifies: FORMERR with no answers unless there is one question, else success with the records selected by name and type, in record order |
| Dnstest.HandleTwice | server.go:52-87 | Handling the same request twice against the same records yields identical replies |
| Dnstest.FormatErrorUnlessOneQuestion | server.go:46-50 | The RCODE is FORMERR exactly when the question count is not 1, and then the answer section is empty whatever is loaded |
| Dnstest.AnswerMembership | server.go:56-85 | A record is in the answer iff it is loaded, its owner name equals the question name and the type policy admits its type |
| Dnstest.RespondAnswersOnlyQuestionName | server.go:53-61 | A one-question reply is a success whose every answer is a loaded record, unchanged, owned by the lowercased question name |
| Dnstest.AnswerIsOrderedSubsequence | server.go:56-85 | The answer is a subsequence of the record list in its order, and each selected record appears as often as it is loaded, no other record at all |
| Dnstest.LoadedMatchIgnoresCase | server.go:33-61 | A parsed record answers a question iff its owner name and the question name agree up to ASCII case and the type policy admits its type |
| Dnstest.AnyQueryReturnsAllOwned | server.go:64-67 | An ANY query returns exactly the records owned by the name, in order, whatever their types |
| Dnstest.AllowListedQueryReturnsSameType | server.go:70-77 | A query type from the allow-list returns exactly the owned records of that type, in order, and never a CNAME record |
| Dnstest.CnameQueryReturnsOnlyCname | server.go:78-83 | A CNAME query returns exactly the owned CNAME records, in order |
| Dnstest.UnsupportedQueryIsEmpty | server.go:70-87 | Any query type outside ANY, CNAME and the allow-list gets a success reply with an empty answer section |
| DnstestExamples.ExampleZoneLoadsUnchanged | server_test.go:13 | Loading the test zone's already-lowercase A and MX records keeps both, unchanged, in order |
| DnstestExamples.ExampleQueries | server_test.go:12-27 | Against the test zone an A query for example.com. returns exactly the A record, an MX query exactly the MX record, and an unloaded name nothing with RCODE 0 |
| DnstestExamples.Roundtrip | server_test.go:29-60 | Loading the test zone and querying A for example.com. gives one answer: an A record for example.com., address 127.0.0.1, TTL 104 |

## Left out

- Zone-text tokenisation (server.go:32, 34, 38): the zone parser is a foreign library; the model takes its output as given, namely the records it produced and the error it stopped on, if any.
- Ascii.Lower: lowercases ASCII letters only and leaves every other character unchanged, whereas Go's `strings.ToLower` also folds non-ASCII Unicode letters; DNS names in tests are ASCII.
- The loader rewrites the name inside the parser's record object in place; the model works on record values, so the aliasing between the parser's record and the stored one is not captured (nothing else holds that record).
- The panic on a parser error is modelled as a `Failure` result rather than an abrupt halt.
- `SetReply` and `SetRcodeFormatError` (server.go:44, 47): the transaction ID, flags and echoed question section are set by the protocol library; a reply is modelled only as its RCODE and answer section.
- `rw.WriteMsg` and wire encoding (server.go:48, 87): foreign protocol library I/O.
- `NewServer`, `NewUnstartedServer`, `Start`, `Close`, `Addr` and `goServe` (server.go:19-23, 98-135): UDP socket binding, the goroutine serve loop and shutdown are network I/O and concurrency.
- The client side of the tests (`dns.Exchange`, server_test.go:18, 35) is network I/O; the tests are used only for the expected answer content.
- Question class and record class are carried but never compared, as in the source.
