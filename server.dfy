/**
 * The zone-backed test responder: the record loader and the query handler
 * that it wires into the server.
 *
 * Loading takes the records a zone parser produced, lowercases every owner
 * name and keeps the parse order; a parser error aborts construction.
 * Handling answers a request with a format error unless it carries exactly
 * one question; otherwise it scans every record in order and returns those
 * whose owner name equals the lowercased question name and whose type the
 * query type admits.
 */
module Dnstest {
  import opened Wrappers
  import opened DnsTypes
  import Ascii
  import Seqs

  /**
   * What the zone parser hands over: the records it produced, in order, and
   * the error it stopped on, if any.
   */
  datatype ZoneParse = ZoneParse(records: seq<RR>, err: Option<string>)

  // ---------------------------------------------------------------------------
  // Zone loader

  /** `rr` with its owner name lowercased and nothing else changed. */
  function LowerOwner(rr: RR): (r: RR)
    ensures r.hdr.name == Ascii.Lower(rr.hdr.name) && Ascii.IsLower(r.hdr.name)
    ensures r.hdr.rrtype == rr.hdr.rrtype && r.hdr.rrclass == rr.hdr.rrclass
    ensures r.hdr.ttl == rr.hdr.ttl && r.rdata == rr.rdata
  {
    rr.(hdr := rr.hdr.(name := Ascii.Lower(rr.hdr.name)))
  }

  /** The record list the loader builds from the parser's records. */
  function Loaded(parsed: seq<RR>): (records: seq<RR>)
    ensures |records| == |parsed|
    ensures forall i :: 0 <= i < |parsed| ==> records[i] == LowerOwner(parsed[i])
  {
    if parsed == [] then []
    else Loaded(parsed[..|parsed| - 1]) + [LowerOwner(parsed[|parsed| - 1])]
  }

  /** Every owner name in `records` is lowercase. */
  predicate OwnersLower(records: seq<RR>) {
    forall i :: 0 <= i < |records| ==> Ascii.IsLower(records[i].hdr.name)
  }

  /** Loading leaves only lowercase owner names, so loading again changes nothing. */
  lemma LoadedIsNormalised(parsed: seq<RR>)
    ensures OwnersLower(Loaded(parsed))
    ensures Loaded(Loaded(parsed)) == Loaded(parsed)
  {
    var records := Loaded(parsed);
    forall i | 0 <= i < |records|
      ensures Loaded(records)[i] == records[i]
    {
      Ascii.LowerIdempotent(parsed[i].hdr.name);
    }
  }

  /**
   * The loading half of NewServerBind: lowercase each parsed record's owner
   * name and append it to the record list; a parser error aborts construction
   * (the panic), so no record list is produced.
   */
  method LoadZone(parse: ZoneParse) returns (r: Result<seq<RR>, string>)
    ensures parse.err.Some? ==> r == Failure(parse.err.value)
    ensures parse.err.None? ==> r == Success(Loaded(parse.records))
  {
    var records: seq<RR> := [];
    var i := 0;
    while i < |parse.records|
      invariant 0 <= i <= |parse.records|
      invariant records == Loaded(parse.records[..i])
    {
      var rr := parse.records[i];
      rr := rr.(hdr := rr.hdr.(name := Ascii.Lower(rr.hdr.name)));
      assert parse.records[..i + 1][..i] == parse.records[..i];
      records := records + [rr];
      i := i + 1;
    }
    assert parse.records[..i] == parse.records;
    if parse.err.Some? {
      return Failure(parse.err.value);
    }
    return Success(records);
  }

  // ---------------------------------------------------------------------------
  // Query matcher and response builder

  /** The query types answered only with records of exactly that type. */
  predicate InAllowList(qtype: uint16) {
    qtype in {TypeA, TypeAAAA, TypeMX, TypeTXT, TypeSPF, TypeNS, TypeSRV, TypeSOA}
  }

  /** Whether a record of type `rrtype` is returned for query type `qtype`. */
  predicate TypeMatches(qtype: uint16, rrtype: uint16) {
    if qtype == TypeANY then true
    else if InAllowList(qtype) then qtype == rrtype
    else if qtype == TypeCNAME then qtype == rrtype
    else false
  }

  /** Whether `rr` answers a question for `qname` (already lowercased) and `qtype`. */
  predicate Selected(qname: string, qtype: uint16, rr: RR) {
    rr.hdr.name == qname && TypeMatches(qtype, rr.hdr.rrtype)
  }

  function Selector(qname: string, qtype: uint16): RR -> bool {
    rr => Selected(qname, qtype, rr)
  }

  /** The answer section for a question, as the handler's scan builds it. */
  function Answer(records: seq<RR>, qname: string, qtype: uint16): seq<RR> {
    Seqs.Keep(records, Selector(qname, qtype))
  }

  /** The reply the handler writes for `req` against the loaded `records`. */
  function Respond(records: seq<RR>, req: Msg): Reply {
    if |req.question| != 1 then Reply(RcodeFormatError, [])
    else Reply(RcodeSuccess, Answer(records, Ascii.Lower(req.question[0].name), req.question[0].qtype))
  }

  /**
   * The handler closure of NewServerBind: the question-count check, then a
   * linear scan that appends every record passing the name and type checks.
   */
  method Handle(records: seq<RR>, req: Msg) returns (resp: Reply)
    ensures resp == Respond(records, req)
  {
    if |req.question| != 1 {
      return Reply(RcodeFormatError, []);
    }
    var qtype := req.question[0].qtype;
    var qname := Ascii.Lower(req.question[0].name);
    var answer: seq<RR> := [];
    for i := 0 to |records|
      invariant answer == Answer(records[..i], qname, qtype)
    {
      var rr := records[i];
      assert records[..i + 1][..i] == records[..i];
      if qname != rr.hdr.name {
        continue;
      }
      if qtype == TypeANY {
        answer := answer + [rr];
        continue;
      }
      var rrType := rr.hdr.rrtype;
      if qtype in {TypeA, TypeAAAA, TypeMX, TypeTXT, TypeSPF, TypeNS, TypeSRV, TypeSOA} {
        if qtype != rrType {
          continue;
        }
        answer := answer + [rr];
      } else if qtype == TypeCNAME {
        if qtype == rrType {
          answer := answer + [rr];
          continue;
        }
      }
    }
    assert records[..|records|] == records;
    resp := Reply(RcodeSuccess, answer);
  }

  /** Handling the same request twice against the same records gives the same reply. */
  method HandleTwice(records: seq<RR>, req: Msg) returns (first: Reply, second: Reply)
    ensures first == second
  {
    first := Handle(records, req);
    second := Handle(records, req);
  }

  // ---------------------------------------------------------------------------
  // Properties of the reply

  /** A request without exactly one question gets FORMERR and no answers, whatever is loaded. */
  lemma FormatErrorUnlessOneQuestion(records: seq<RR>, req: Msg)
    ensures |req.question| != 1 <==> Respond(records, req).rcode == RcodeFormatError
    ensures |req.question| != 1 ==> Respond(records, req).answer == []
  {
  }

  /**
   * A record is in the answer exactly when it is loaded, its owner name is the
   * question name and the type policy admits its type.
   */
  lemma AnswerMembership(records: seq<RR>, qname: string, qtype: uint16, rr: RR)
    ensures rr in Answer(records, qname, qtype)
        <==> rr in records && rr.hdr.name == qname && TypeMatches(qtype, rr.hdr.rrtype)
  {
    Seqs.KeepMembership(records, Selector(qname, qtype), rr);
  }

  /**
   * The answer to a single question holds only loaded records, unchanged,
   * whose owner name is the lowercased question name.
   */
  lemma RespondAnswersOnlyQuestionName(records: seq<RR>, req: Msg)
    requires |req.question| == 1
    ensures Respond(records, req).rcode == RcodeSuccess
    ensures forall rr :: rr in Respond(records, req).answer ==>
              rr in records && rr.hdr.name == Ascii.Lower(req.question[0].name)
  {
    var q := req.question[0];
    forall rr | rr in Respond(records, req).answer
      ensures rr in records && rr.hdr.name == Ascii.Lower(q.name)
    {
      AnswerMembership(records, Ascii.Lower(q.name), q.qtype, rr);
    }
  }

  /**
   * The answer keeps the record list's order and each record's multiplicity:
   * it is a subsequence of the records, and a selected record appears in it
   * as often as it is loaded.
   */
  lemma AnswerIsOrderedSubsequence(records: seq<RR>, qname: string, qtype: uint16, rr: RR)
    ensures Seqs.IsSubsequence(Answer(records, qname, qtype), records)
    ensures multiset(Answer(records, qname, qtype))[rr]
         == if Selected(qname, qtype, rr) then multiset(records)[rr] else 0
  {
    Seqs.KeepIsSubsequence(records, Selector(qname, qtype));
    Seqs.KeepMultiplicity(records, Selector(qname, qtype), rr);
  }

  /**
   * Because loading lowercases owner names and handling lowercases the question
   * name, a parsed record answers a question exactly when the two names agree
   * up to ASCII case and the type policy admits the record's type.
   */
  lemma LoadedMatchIgnoresCase(parsed: seq<RR>, req: Msg, i: nat)
    requires |req.question| == 1 && i < |parsed|
    ensures LowerOwner(parsed[i]) in Respond(Loaded(parsed), req).answer
        <==> Ascii.Lower(parsed[i].hdr.name) == Ascii.Lower(req.question[0].name)
             && TypeMatches(req.question[0].qtype, parsed[i].hdr.rrtype)
  {
    var q := req.question[0];
    assert Loaded(parsed)[i] == LowerOwner(parsed[i]);
    AnswerMembership(Loaded(parsed), Ascii.Lower(q.name), q.qtype, LowerOwner(parsed[i]));
  }

  /** Records owned by `qname`, of any type. */
  function OwnedBy(qname: string): RR -> bool {
    (rr: RR) => rr.hdr.name == qname
  }

  /** Records owned by `qname` whose type is exactly `t`. */
  function OwnedByWithType(qname: string, t: uint16): RR -> bool {
    (rr: RR) => rr.hdr.name == qname && rr.hdr.rrtype == t
  }

  /** An ANY query returns every record owned by the name, in order, whatever its type. */
  lemma AnyQueryReturnsAllOwned(records: seq<RR>, qname: string)
    ensures Answer(records, qname, TypeANY) == Seqs.Keep(records, OwnedBy(qname))
  {
    Seqs.KeepCongruent(records, Selector(qname, TypeANY), OwnedBy(qname));
  }

  /**
   * A query type from the allow-list returns exactly the owned records of that
   * type, in order; in particular never a CNAME record.
   */
  lemma AllowListedQueryReturnsSameType(records: seq<RR>, qname: string, qtype: uint16)
    requires InAllowList(qtype)
    ensures Answer(records, qname, qtype) == Seqs.Keep(records, OwnedByWithType(qname, qtype))
    ensures forall rr :: rr in Answer(records, qname, qtype) ==> rr.hdr.rrtype != TypeCNAME
  {
    Seqs.KeepCongruent(records, Selector(qname, qtype), OwnedByWithType(qname, qtype));
    forall rr | rr in Answer(records, qname, qtype)
      ensures rr.hdr.rrtype != TypeCNAME
    {
      AnswerMembership(records, qname, qtype, rr);
    }
  }

  /** A CNAME query returns exactly the owned CNAME records, in order. */
  lemma CnameQueryReturnsOnlyCname(records: seq<RR>, qname: string)
    ensures Answer(records, qname, TypeCNAME) == Seqs.Keep(records, OwnedByWithType(qname, TypeCNAME))
  {
    Seqs.KeepCongruent(records, Selector(qname, TypeCNAME), OwnedByWithType(qname, TypeCNAME));
  }

  /** Any other query type gets a successful reply with an empty answer section. */
  lemma UnsupportedQueryIsEmpty(records: seq<RR>, req: Msg)
    requires |req.question| == 1
    requires var t := req.question[0].qtype; t != TypeANY && t != TypeCNAME && !InAllowList(t)
    ensures Respond(records, req) == Reply(RcodeSuccess, [])
  {
    var q := req.question[0];
    Seqs.KeepNone(records, Selector(Ascii.Lower(q.name), q.qtype));
  }
}
